/** The structure block and the strings block of a flattened device tree: words, tokens and the walk
    over them. Sections 5.4 and 5.5 of the Devicetree Specification. */
module FdtBlock {
  import opened Basics

  type Byte = x: int | 0 <= x < 256

  type Bytes = seq<Byte>

  const MAX: nat := 0x1_0000_0000

  const BEGIN_NODE := 1
  const END_NODE := 2
  const PROP := 3
  const NOP := 4
  const END := 9

  // ----- big-endian words -----

  function Word(w: nat): (b: Bytes)
    requires w < MAX
    ensures |b| == 4
  {
    var (x, y, z) := (w / 0x100, w / 0x100 / 0x100, w / 0x100 / 0x100 / 0x100);
    [z, y % 0x100, x % 0x100, w % 0x100]
  }

  function Value(b: Bytes): (w: nat)
    requires |b| == 4
    ensures w < MAX
  {
    var (b0: int, b1: int, b2: int, b3: int) := (b[0], b[1], b[2], b[3]);
    ((b0 * 0x100 + b1) * 0x100 + b2) * 0x100 + b3
  }

  lemma ValueWord(w: nat)
    requires w < MAX
    ensures Value(Word(w)) == w
  {}

  /** Rounded up to a whole number of words. */
  function Align(n: nat): (r: nat)
    ensures n <= r < n + 4 && r % 4 == 0
  {
    (n + 3) / 4 * 4
  }

  // ----- tokens -----

  datatype Token = Begin(name: Bytes) | Prop(off: nat, value: Bytes) | EndNode | Nop | Fin

  predicate Proper(t: Token) {
    match t
    case Begin(name) => 0 !in name
    case Prop(off, value) => off < MAX && |value| < MAX
    case _ => true
  }

  function Size(t: Token): (n: nat)
    ensures n >= 4 && n % 4 == 0
  {
    match t
    case Begin(name) => 4 + Align(|name| + 1)
    case Prop(_, value) => 12 + Align(|value|)
    case _ => 4
  }

  function TagOf(t: Token): nat {
    match t
    case Begin(_) => BEGIN_NODE
    case Prop(_, _) => PROP
    case EndNode => END_NODE
    case Nop => NOP
    case Fin => END
  }

  /** The bytes of one token; what fills the last word is not looked at. */
  ghost predicate IsToken(b: Bytes, t: Token) {
    && Proper(t) && |b| == Size(t) && b[..4] == Word(TagOf(t))
    && (t.Begin? ==> b[4..4 + |t.name|] == t.name && b[4 + |t.name|] == 0)
    && (t.Prop? ==> b[4..8] == Word(|t.value|) && b[8..12] == Word(t.off) && b[12..12 + |t.value|] == t.value)
  }

  function Total(ts: seq<Token>): nat {
    if ts == [] then 0 else Size(ts[0]) + Total(ts[1..])
  }

  lemma {:induction false} TotalAligned(ts: seq<Token>)
    ensures Total(ts) % 4 == 0
  {
    if ts != [] {
      TotalAligned(ts[1..]);
      Aligned(Size(ts[0]), Total(ts[1..]));
    }
    hide Size;
  }

  lemma Aligned(a: nat, b: nat)
    requires a % 4 == 0 && b % 4 == 0
    ensures (a + b) % 4 == 0
  {}

  ghost predicate Encodes(b: Bytes, ts: seq<Token>) {
    if ts == [] then b == []
    else Size(ts[0]) <= |b| && IsToken(b[..Size(ts[0])], ts[0]) && Encodes(b[Size(ts[0])..], ts[1..])
  }

  lemma {:induction false} EncodesLength(b: Bytes, ts: seq<Token>)
    requires Encodes(b, ts)
    ensures |b| == Total(ts)
  {
    if ts != [] { EncodesLength(b[Size(ts[0])..], ts[1..]); }
    hide IsToken, Size;
  }

  lemma {:induction false} TotalConcat(s: seq<Token>, t: seq<Token>)
    ensures Total(s + t) == Total(s) + Total(t)
  {
    hide Size;
    if s == [] {
      assert s + t == t;
    } else {
      TotalConcat(s[1..], t);
      assert (s + t)[1..] == s[1..] + t;
    }
  }

  lemma {:induction false} EncodesConcat(a: Bytes, s: seq<Token>, b: Bytes, t: seq<Token>)
    requires Encodes(a, s) && Encodes(b, t)
    ensures Encodes(a + b, s + t)
  {
    hide IsToken, Size;
    if s == [] {
      assert a + b == b && s + t == t;
    } else {
      var n := Size(s[0]);
      EncodesConcat(a[n..], s[1..], b, t);
      assert (s + t)[1..] == s[1..] + t;
      assert (a + b)[..n] == a[..n] && (a + b)[n..] == a[n..] + b;
    }
  }

  lemma {:induction false} EncodesSplit(b: Bytes, s: seq<Token>, t: seq<Token>)
    requires Encodes(b, s + t)
    ensures Total(s) <= |b| && Encodes(b[..Total(s)], s) && Encodes(b[Total(s)..], t)
  {
    hide IsToken, Size;
    if s == [] {
      assert s + t == t && b[..0] == [] && b[0..] == b;
    } else {
      var n := Size(s[0]);
      assert (s + t)[1..] == s[1..] + t;
      EncodesSplit(b[n..], s[1..], t);
      var m := Total(s[1..]);
      assert b[..n + m][..n] == b[..n] && b[..n + m][n..] == b[n..][..m] && b[n + m..] == b[n..][m..];
    }
  }

  lemma EncodesOne(b: Bytes, t: Token)
    ensures Encodes(b, [t]) <==> IsToken(b, t)
  {
    hide IsToken, Size;
    assert [t][1..] == [];
    if |b| == Size(t) { assert b[..Size(t)] == b && b[Size(t)..] == []; }
    if IsToken(b, t) { TokenLength(b, t); }
    if Encodes(b, [t]) { EncodesLength(b, [t]); }
  }

  lemma EncodesCons(b: Bytes, t: Token, u: seq<Token>)
    ensures Encodes(b, [t] + u) <==> Size(t) <= |b| && IsToken(b[..Size(t)], t) && Encodes(b[Size(t)..], u)
  {
    hide IsToken, Size;
    assert ([t] + u)[0] == t && ([t] + u)[1..] == u;
  }

  /** The bytes before a token, of it, and behind it. */
  lemma Cut(b: Bytes, s: seq<Token>, t: Token, u: seq<Token>)
    requires Encodes(b, s + ([t] + u))
    ensures var (o, n) := (Total(s), Size(t));
            o + n <= |b| && Encodes(b[..o], s) && IsToken(b[o..o + n], t) && Encodes(b[o + n..], u)
  {
    hide IsToken, Size, Encodes, Total;
    EncodesSplit(b, s, [t] + u);
    var (o, n) := (Total(s), Size(t));
    EncodesCons(b[o..], t, u);
    assert b[o..][..n] == b[o..o + n] && b[o..][n..] == b[o + n..];
  }

  lemma Glue(a: Bytes, s: seq<Token>, b: Bytes, t: Token, c: Bytes, u: seq<Token>)
    requires Encodes(a, s) && IsToken(b, t) && Encodes(c, u)
    ensures Encodes(a + b + c, s + ([t] + u))
  {
    EncodesOne(b, t);
    hide IsToken, Size, Encodes;
    EncodesConcat(b, [t], c, u);
    EncodesConcat(a, s, b + c, [t] + u);
    assert a + b + c == a + (b + c);
  }

  lemma TokenLength(b: Bytes, t: Token)
    requires IsToken(b, t)
    ensures |b| == Size(t)
  {}

  // ----- the walk -----

  /** The first zero byte from `j` on, or the end. */
  function FindNul(b: Bytes, j: nat): (r: nat)
    requires j <= |b|
    ensures j <= r <= |b| && 0 !in b[j..r] && (r < |b| ==> b[r] == 0)
    decreases |b| - j
  {
    if j == |b| || b[j] == 0 then j else FindNul(b, j + 1)
  }

  lemma {:induction false} NulAt(b: Bytes, j: nat, r: nat)
    requires j <= r < |b| && b[r] == 0 && 0 !in b[j..r]
    ensures FindNul(b, j) == r
    decreases r - j
  {
    if j < r {
      assert b[j] == b[j..r][0];
      assert b[j + 1..r] == b[j..r][1..];
      NulAt(b, j + 1, r);
    }
  }

  lemma Slice(b: Bytes, off: nat, n: nat, i: nat, j: nat)
    requires i <= j <= n && off + n <= |b|
    ensures b[off..off + n][i..j] == b[off + i..off + j]
  {
    var (x, y) := (b[off..off + n][i..j], b[off + i..off + j]);
    forall k | 0 <= k < j - i ensures x[k] == y[k] {
      assert x[k] == b[off..off + n][i + k] == b[off + (i + k)];
    }
  }

  /** A tag and the offset behind its token, or why there is none. */
  datatype Step = Step(tag: nat, next: nat) | Truncated | BadStructure

  function Checked(b: Bytes, tag: nat, end: nat): Step {
    if end > |b| then BadStructure else Step(tag, Align(end))
  }

  function NextTag(b: Bytes, off: nat): Step {
    if off + 4 > |b| then Truncated
    else
      var tag := Value(b[off..off + 4]);
      if tag == BEGIN_NODE then
        var j := FindNul(b, off + 4);
        if j == |b| then BadStructure else Checked(b, tag, j + 1)
      else if tag == PROP then
        if off + 8 > |b| then BadStructure else Checked(b, tag, off + 12 + Value(b[off + 4..off + 8]))
      else if tag == END || tag == END_NODE || tag == NOP then Checked(b, tag, off + 4)
      else BadStructure
  }

  /** The tag at `off`, found by the scanner's own loop over the name. */
  method ReadTag(b: Bytes, off: nat) returns (s: Step)
    ensures s == NextTag(b, off)
  {
    if off + 4 > |b| { return Truncated; }
    var tag := Value(b[off..off + 4]);
    var end := off + 4;
    if tag == BEGIN_NODE {
      while end < |b| && b[end] != 0
        invariant off + 4 <= end <= |b| && FindNul(b, end) == FindNul(b, off + 4)
      {
        end := end + 1;
      }
      if end == |b| { return BadStructure; }
      end := end + 1;
    } else if tag == PROP {
      if end + 4 > |b| { return BadStructure; }
      end := end + 8 + Value(b[end..end + 4]);
    } else if tag != END && tag != END_NODE && tag != NOP {
      return BadStructure;
    }
    if end > |b| { return BadStructure; }
    s := Step(tag, Align(end));
  }

  lemma AlignSum(off: nat, n: nat)
    requires off % 4 == 0
    ensures Align(off + n) == off + Align(n)
  {}

  lemma BeginAt(b: Bytes, off: nat, t: Token)
    requires t.Begin? && off + Size(t) <= |b| && IsToken(b[off..off + Size(t)], t)
    ensures Proper(t) && Size(t) == 4 + Align(|t.name| + 1) && b[off..off + 4] == Word(BEGIN_NODE)
    ensures b[off + 4..off + 4 + |t.name|] == t.name && b[off + 4 + |t.name|] == 0
  {
    hide Value, Word, Align;
    var n := |t.name|;
    Slice(b, off, Size(t), 0, 4);
    Slice(b, off, Size(t), 4, 4 + n);
  }

  lemma NextBegin(b: Bytes, off: nat, t: Token)
    requires t.Begin? && off % 4 == 0 && off + Size(t) <= |b| && IsToken(b[off..off + Size(t)], t)
    ensures NextTag(b, off) == Step(BEGIN_NODE, off + Size(t)) && FindNul(b, off + 4) == off + 4 + |t.name|
    ensures b[off + 4..off + 4 + |t.name|] == t.name
  {
    hide Value, Word, Align, IsToken, FindNul;
    var n := |t.name|;
    BeginAt(b, off, t);
    ValueWord(BEGIN_NODE);
    NulAt(b, off + 4, off + 4 + n);
    AlignSum(off, 4 + n + 1);
    AlignSum(4, n + 1);
  }

  lemma NextProp(b: Bytes, off: nat, t: Token)
    requires t.Prop? && off % 4 == 0 && off + Size(t) <= |b| && IsToken(b[off..off + Size(t)], t)
    ensures NextTag(b, off) == Step(PROP, off + Size(t))
    ensures b[off + 4..off + 8] == Word(|t.value|) && b[off + 8..off + 12] == Word(t.off)
            && b[off + 12..off + 12 + |t.value|] == t.value
  {
    hide Value, Word, Align;
    var n := |t.value|;
    Slice(b, off, Size(t), 0, 4);
    Slice(b, off, Size(t), 4, 8);
    Slice(b, off, Size(t), 8, 12);
    Slice(b, off, Size(t), 12, 12 + n);
    ValueWord(PROP);
    ValueWord(n);
    AlignSum(off, 12 + n);
    AlignSum(12, n);
  }

  /** At a token the walk reads its tag and steps behind it. */
  lemma NextAt(b: Bytes, off: nat, t: Token)
    requires off % 4 == 0 && off + Size(t) <= |b| && IsToken(b[off..off + Size(t)], t)
    ensures NextTag(b, off) == Step(TagOf(t), off + Size(t))
  {
    if t.Begin? {
      NextBegin(b, off, t);
    } else if t.Prop? {
      NextProp(b, off, t);
    } else {
      assert b[off..off + 4] == b[off..off + Size(t)][..4];
      ValueWord(TagOf(t));
      AlignSum(off, 4);
      hide Value, Word;
    }
  }

  // ----- what the walk sees -----

  /** What a reader of the tree is told; names of properties come from the strings block. */
  datatype Event = Node(name: Bytes) | Property(name: Bytes, value: Bytes) | Close

  function GetString(strs: Bytes, off: nat): Option<Bytes> {
    if off >= |strs| then None
    else
      var j := FindNul(strs, off);
      if j == |strs| then None else Some(strs[off..j])
  }

  /** The events from `off` up to the end tag, or None for a broken block. */
  ghost function Walk(b: Bytes, strs: Bytes, off: nat): Option<seq<Event>>
    decreases |b| - off
  {
    match NextTag(b, off)
    case Truncated => None
    case BadStructure => None
    case Step(tag, next) =>
      if tag == END then Some([])
      else
        var rest := Walk(b, strs, next);
        var here := EventAt(b, strs, off, tag);
        if rest.None? || here.None? then None else Some(here.v + rest.v)
  }

  ghost function EventAt(b: Bytes, strs: Bytes, off: nat, tag: nat): Option<seq<Event>>
    requires NextTag(b, off).Step? && NextTag(b, off).tag == tag
  {
    if tag == BEGIN_NODE then Some([Node(b[off + 4..FindNul(b, off + 4)])])
    else if tag == PROP then
      var (len, name) := (Value(b[off + 4..off + 8]), GetString(strs, Value(b[off + 8..off + 12])));
      if name.None? then None else Some([Property(name.v, b[off + 12..off + 12 + len])])
    else if tag == END_NODE then Some([Close])
    else Some([])
  }

  /** The event a token stands for. */
  function EventOf(t: Token, strs: Bytes): Option<seq<Event>> {
    match t
    case Begin(name) => Some([Node(name)])
    case Prop(off, value) =>
      var name := GetString(strs, off);
      if name.None? then None else Some([Property(name.v, value)])
    case EndNode => Some([Close])
    case Nop => Some([])
    case Fin => Some([])
  }

  function EventsOf(ts: seq<Token>, strs: Bytes): Option<seq<Event>> {
    if ts == [] then Some([])
    else
      var (here, rest) := (EventOf(ts[0], strs), EventsOf(ts[1..], strs));
      if here.None? || rest.None? then None else Some(here.v + rest.v)
  }

  lemma EventAtToken(b: Bytes, strs: Bytes, off: nat, t: Token)
    requires off % 4 == 0 && off + Size(t) <= |b| && IsToken(b[off..off + Size(t)], t)
    ensures NextTag(b, off) == Step(TagOf(t), off + Size(t)) && EventAt(b, strs, off, TagOf(t)) == EventOf(t, strs)
  {
    NextAt(b, off, t);
    if t.Begin? {
      NextBegin(b, off, t);
    } else if t.Prop? {
      NextProp(b, off, t);
      ValueWord(|t.value|);
      ValueWord(t.off);
    }
    hide Value, Word, NextTag, IsToken, Size, GetString;
  }

  /** Walking the bytes of some tokens and the end tag tells the events of the tokens. */
  lemma {:induction false} WalkTokens(b: Bytes, strs: Bytes, off: nat, ts: seq<Token>)
    requires off <= |b| && off % 4 == 0 && Encodes(b[off..], ts + [Fin]) && Fin !in ts
    ensures Walk(b, strs, off) == EventsOf(ts, strs)
    decreases |ts|
  {
    hide IsToken, Size, NextTag, EventAt, EventOf;
    var all := ts + [Fin];
    var n := Size(all[0]);
    assert b[off..][..n] == b[off..off + n] && b[off..][n..] == b[off + n..];
    EventAtToken(b, strs, off, all[0]);
    if ts != [] {
      assert all[1..] == ts[1..] + [Fin];
      Aligned(off, n);
      WalkTokens(b, strs, off + n, ts[1..]);
      assert TagOf(ts[0]) != END;
    }
  }

  // ----- strings -----

  /** The name `s` with its terminator lies at `p`. */
  ghost predicate StringAt(strs: Bytes, p: nat, s: Bytes) {
    p + |s| + 1 <= |strs| && strs[p..p + |s| + 1] == s + [0]
  }

  /** The search for a name in the strings block. */
  method FindString(strs: Bytes, s: Bytes) returns (r: Option<nat>)
    ensures r.Some? ==> StringAt(strs, r.v, s) && forall p: nat :: p < r.v ==> !StringAt(strs, p, s)
    ensures r.None? ==> forall p: nat :: !StringAt(strs, p, s)
  {
    var p := 0;
    while p + |s| + 1 <= |strs|
      invariant forall k: nat :: k < p ==> !StringAt(strs, k, s)
    {
      if strs[p..p + |s| + 1] == s + [0] { return Some(p); }
      p := p + 1;
    }
    r := None;
  }

  lemma StringIs(strs: Bytes, p: nat, s: Bytes)
    requires StringAt(strs, p, s) && 0 !in s
    ensures GetString(strs, p) == Some(s)
  {
    var n := |s|;
    assert strs[p..p + n] == strs[p..p + n + 1][..n] == s;
    assert strs[p + n] == strs[p..p + n + 1][n];
    NulAt(strs, p, p + n);
  }

  /** A string is there exactly if its bytes with a terminator are. */
  lemma StringExact(strs: Bytes, p: nat, s: Bytes)
    ensures GetString(strs, p) == Some(s) <==> 0 !in s && StringAt(strs, p, s)
  {
    if 0 !in s && StringAt(strs, p, s) { StringIs(strs, p, s); }
    if p < |strs| && FindNul(strs, p) < |strs| {
      var j := FindNul(strs, p);
      assert strs[p..j + 1] == strs[p..j] + [0];
    }
  }

  lemma {:induction false} NulShift(pre: Bytes, b: Bytes, post: Bytes, j: nat)
    requires j <= |b| && FindNul(b, j) < |b|
    ensures FindNul(pre + b + post, |pre| + j) == |pre| + FindNul(b, j)
  {
    var (r, all) := (FindNul(b, j), pre + b + post);
    assert all[|pre| + j..|pre| + r] == b[j..r];
    NulAt(all, |pre| + j, |pre| + r);
  }

  /** A string keeps its value when the block grows at either end. */
  lemma StringShift(pre: Bytes, strs: Bytes, post: Bytes, off: nat)
    requires GetString(strs, off).Some?
    ensures GetString(pre + strs + post, |pre| + off) == GetString(strs, off)
  {
    NulShift(pre, strs, post, off);
    var r := FindNul(strs, off);
    assert (pre + strs + post)[|pre| + off..|pre| + r] == strs[off..r];
  }

  // ----- events of token sequences -----

  function Joined(a: Option<seq<Event>>, b: Option<seq<Event>>): Option<seq<Event>> {
    if a.None? || b.None? then None else Some(a.v + b.v)
  }

  lemma {:induction false} EventsConcat(s: seq<Token>, t: seq<Token>, strs: Bytes)
    ensures EventsOf(s + t, strs) == Joined(EventsOf(s, strs), EventsOf(t, strs))
  {
    hide EventOf;
    if s == [] {
      assert s + t == t;
      var b := EventsOf(t, strs);
      if b.Some? { assert [] + b.v == b.v; }
    } else {
      assert (s + t)[0] == s[0] && (s + t)[1..] == s[1..] + t;
      EventsConcat(s[1..], t, strs);
      var (h, a, b) := (EventOf(s[0], strs), EventsOf(s[1..], strs), EventsOf(t, strs));
      if h.Some? && a.Some? && b.Some? { assert h.v + (a.v + b.v) == (h.v + a.v) + b.v; }
    }
  }

  lemma {:induction false} EventsGrow(ts: seq<Token>, strs: Bytes, post: Bytes)
    requires EventsOf(ts, strs).Some?
    ensures EventsOf(ts, strs + post) == EventsOf(ts, strs)
  {
    if ts != [] {
      EventsGrow(ts[1..], strs, post);
      if ts[0].Prop? {
        assert [] + strs + post == strs + post;
        StringShift([], strs, post, ts[0].off);
      }
      hide GetString;
    }
  }

  /** A finished tree: the tokens of its structure block, and what they tell. */
  ghost predicate Tree(block: Bytes, strs: Bytes, ts: seq<Token>, events: seq<Event>) {
    Encodes(block, ts + [Fin]) && Fin !in ts && EventsOf(ts, strs) == Some(events)
  }

  lemma TreeWalk(block: Bytes, strs: Bytes, ts: seq<Token>, events: seq<Event>)
    requires Tree(block, strs, ts, events)
    ensures Walk(block, strs, 0) == Some(events)
  {
    assert block[0..] == block;
    WalkTokens(block, strs, 0, ts);
    hide Walk, Encodes, EventsOf;
  }

  // ----- storing bytes in place -----

  function Put(s: Bytes, at: nat, d: Bytes): (r: Bytes)
    requires at + |d| <= |s|
    ensures |r| == |s|
  {
    s[..at] + d + s[at + |d|..]
  }

  lemma PutBelow(s: Bytes, at: nat, d: Bytes, i: nat, j: nat)
    requires at + |d| <= |s| && i <= j <= at
    ensures Put(s, at, d)[i..j] == s[i..j]
  {}

  lemma PutAbove(s: Bytes, at: nat, d: Bytes, i: nat, j: nat)
    requires at + |d| <= i <= j <= |s|
    ensures Put(s, at, d)[i..j] == s[i..j]
  {}

  lemma PutHere(s: Bytes, at: nat, d: Bytes)
    requires at + |d| <= |s|
    ensures Put(s, at, d)[at..at + |d|] == d
  {}

  method Store(buf: array<Byte>, at: nat, d: Bytes)
    requires at + |d| <= buf.Length
    modifies buf
    ensures buf[..] == Put(old(buf[..]), at, d)
  {
    ghost var was := buf[..];
    forall k | 0 <= k < |d| { buf[at + k] := d[k]; }
    assert forall k :: 0 <= k < |was| ==> buf[k] == Put(was, at, d)[k];
  }
}
