/** Editing a finished device tree in its buffer: setting and deleting properties, deleting nodes, and
    overwriting either with NOP tags instead. */
module FdtEdit {
  import opened Basics
  import opened FdtBlock
  import FdtWriter

  // ----- edits of the token sequence -----

  datatype Found = Found(i: nat) | NotFound | Broken

  /** The first property called `name` among those that follow each other from token `i` on. */
  function FindProp(ts: seq<Token>, strs: Bytes, i: nat, name: Bytes): Found
    requires i <= |ts|
    decreases |ts| - i
  {
    if i == |ts| then Broken
    else match ts[i]
      case Nop => FindProp(ts, strs, i + 1, name)
      case Prop(off, _) => if GetString(strs, off) == Some(name) then Found(i) else FindProp(ts, strs, i + 1, name)
      case _ => NotFound
  }

  /** A NOP or a property of another name. */
  predicate Passes(t: Token, strs: Bytes, name: Bytes) {
    t.Nop? || (t.Prop? && GetString(strs, t.off) != Some(name))
  }

  ghost predicate PassesAll(ts: seq<Token>, strs: Bytes, name: Bytes, i: nat, k: nat) {
    k <= |ts| && forall l :: i <= l < k ==> Passes(ts[l], strs, name)
  }

  /** What a search from token `i` on means: the property is the first thing not passed over; something that
      is neither a property nor a NOP is; or the tokens end. */
  ghost predicate Locates(ts: seq<Token>, strs: Bytes, i: nat, name: Bytes, r: Found) {
    match r
    case Found(k) =>
      i <= k < |ts| && ts[k].Prop? && GetString(strs, ts[k].off) == Some(name) && PassesAll(ts, strs, name, i, k)
    case NotFound =>
      exists k :: i <= k < |ts| && !ts[k].Prop? && !ts[k].Nop? && PassesAll(ts, strs, name, i, k)
    case Broken => PassesAll(ts, strs, name, i, |ts|)
  }

  lemma {:induction false} FindPropIs(ts: seq<Token>, strs: Bytes, i: nat, name: Bytes)
    requires i <= |ts|
    ensures Locates(ts, strs, i, name, FindProp(ts, strs, i, name))
    decreases |ts| - i
  {
    hide GetString;
    if i < |ts| {
      assert PassesAll(ts, strs, name, i, i);
      if Passes(ts[i], strs, name) {
        FindPropIs(ts, strs, i + 1, name);
        PassesMore(ts, strs, name, i);
      }
    }
  }

  lemma PassesMore(ts: seq<Token>, strs: Bytes, name: Bytes, i: nat)
    requires i < |ts| && Passes(ts[i], strs, name)
    ensures forall k :: i < k && PassesAll(ts, strs, name, i + 1, k) ==> PassesAll(ts, strs, name, i, k)
  {
    hide Passes;
  }

  /** Only one answer fits. */
  lemma LocatesOne(ts: seq<Token>, strs: Bytes, i: nat, name: Bytes, r: Found, r': Found)
    requires i <= |ts| && Locates(ts, strs, i, name, r) && Locates(ts, strs, i, name, r')
    ensures r == r'
  {
    hide GetString;
  }

  /** The token behind the end of a node, looking from token `i` inside it, `d` nodes deeper. */
  function MatchEnd(ts: seq<Token>, i: nat, d: nat): Option<nat>
    requires i <= |ts|
    decreases |ts| - i
  {
    if i == |ts| then None
    else match ts[i]
      case Begin(_) => MatchEnd(ts, i + 1, d + 1)
      case EndNode => if d == 0 then Some(i + 1) else MatchEnd(ts, i + 1, d - 1)
      case _ => MatchEnd(ts, i + 1, d)
  }

  /** The next node and how deep it is, or what lies behind the end of the node stepped out of. */
  datatype Stepped = Next(i: nat, depth: nat) | Behind(i: nat) | NoMore

  /** The first node from token `i` on, counting depth from `d`. */
  function NodeFrom(ts: seq<Token>, i: nat, d: nat): Stepped
    requires i <= |ts|
    decreases |ts| - i
  {
    if i == |ts| then NoMore
    else match ts[i]
      case Begin(_) => Next(i, d + 1)
      case EndNode => if d == 0 then Behind(i + 1) else NodeFrom(ts, i + 1, d - 1)
      case _ => NodeFrom(ts, i + 1, d)
  }

  /** A list of properties, NOPs and nodes, as the body of a node is. */
  datatype Body = Empty | AProp(off: nat, value: Bytes, rest: Body) | ANop(rest: Body)
      | ANode(name: Bytes, body: Body, rest: Body)

  function Flatten(b: Body): seq<Token> {
    match b
    case Empty => []
    case AProp(off, value, rest) => [Prop(off, value)] + Flatten(rest)
    case ANop(rest) => [Nop] + Flatten(rest)
    case ANode(name, body, rest) => [Begin(name)] + Flatten(body) + [EndNode] + Flatten(rest)
  }

  /** The tokens `f` lie in `ts` from `i` on. */
  ghost predicate Occurs(ts: seq<Token>, i: nat, f: seq<Token>) { i + |f| <= |ts| && ts[i..i + |f|] == f }

  lemma OccursSplit(ts: seq<Token>, i: nat, f: seq<Token>, g: seq<Token>)
    requires Occurs(ts, i, f + g)
    ensures Occurs(ts, i, f) && Occurs(ts, i + |f|, g)
  {
    var all := ts[i..i + |f + g|];
    assert all[..|f|] == f && all[|f|..] == g;
    assert ts[i..i + |f|] == all[..|f|] && ts[i + |f|..i + |f| + |g|] == all[|f|..];
  }

  lemma OccursOne(ts: seq<Token>, i: nat, t: Token)
    requires Occurs(ts, i, [t])
    ensures i < |ts| && ts[i] == t
  {
    assert ts[i] == ts[i..i + 1][0];
  }

  /** Counting depth passes over whole bodies. */
  lemma {:induction false} MatchOver(ts: seq<Token>, i: nat, b: Body, d: nat)
    requires Occurs(ts, i, Flatten(b))
    ensures MatchEnd(ts, i, d) == MatchEnd(ts, i + |Flatten(b)|, d)
    decreases b
  {
    hide Occurs;
    match b
    case Empty => assert Flatten(b) == [];
    case AProp(off, value, rest) =>
      OccursSplit(ts, i, [Prop(off, value)], Flatten(rest));
      OccursOne(ts, i, Prop(off, value));
      MatchOver(ts, i + 1, rest, d);
    case ANop(rest) =>
      OccursSplit(ts, i, [Nop], Flatten(rest));
      OccursOne(ts, i, Nop);
      MatchOver(ts, i + 1, rest, d);
    case ANode(name, body, rest) =>
      var f := Flatten(body);
      OccursNode(ts, i, name, f, Flatten(rest));
      MatchOver(ts, i + 1, body, d + 1);
      MatchOver(ts, i + 2 + |f|, rest, d);
  }

  lemma OccursNode(ts: seq<Token>, i: nat, name: Bytes, f: seq<Token>, g: seq<Token>)
    requires Occurs(ts, i, [Begin(name)] + f + [EndNode] + g)
    ensures i + 1 + |f| < |ts| && ts[i] == Begin(name) && Occurs(ts, i + 1, f) && ts[i + 1 + |f|] == EndNode
            && Occurs(ts, i + 2 + |f|, g)
  {
    hide Occurs;
    OccursSplit(ts, i, [Begin(name)] + f + [EndNode], g);
    OccursSplit(ts, i, [Begin(name)] + f, [EndNode]);
    OccursSplit(ts, i, [Begin(name)], f);
    OccursOne(ts, i, Begin(name));
    OccursOne(ts, i + 1 + |f|, EndNode);
  }

  /** The end found by counting depth is the end of the node itself. */
  lemma MatchNode(ts: seq<Token>, i: nat, name: Bytes, body: Body)
    requires Occurs(ts, i, Flatten(ANode(name, body, Empty)))
    ensures i < |ts| && ts[i] == Begin(name) && MatchEnd(ts, i + 1, 0) == Some(i + |Flatten(ANode(name, body, Empty))|)
  {
    hide Occurs;
    var f := Flatten(body);
    assert Flatten(ANode(name, body, Empty)) == [Begin(name)] + f + [EndNode] + [];
    OccursNode(ts, i, name, f, []);
    MatchOver(ts, i + 1, body, 0);
  }

  /** The body has the property before its first node. */
  predicate HasProp(b: Body, strs: Bytes, name: Bytes) {
    match b
    case AProp(off, _, rest) => GetString(strs, off) == Some(name) || HasProp(rest, strs, name)
    case ANop(rest) => HasProp(rest, strs, name)
    case _ => false
  }

  /** In a node the search always comes to an answer: the property or that there is none. */
  lemma {:induction false} SearchBody(ts: seq<Token>, strs: Bytes, i: nat, b: Body, name: Bytes)
    requires Occurs(ts, i, Flatten(b) + [EndNode])
    ensures var r := FindProp(ts, strs, i, name); if HasProp(b, strs, name) then r.Found? else r == NotFound
    decreases b
  {
    hide Occurs, GetString;
    OccursSplit(ts, i, Flatten(b), [EndNode]);
    match b
    case Empty => OccursOne(ts, i, EndNode);
    case AProp(off, value, rest) =>
      assert Flatten(b) + [EndNode] == [Prop(off, value)] + (Flatten(rest) + [EndNode]);
      OccursSplit(ts, i, [Prop(off, value)], Flatten(rest) + [EndNode]);
      OccursOne(ts, i, Prop(off, value));
      SearchBody(ts, strs, i + 1, rest, name);
    case ANop(rest) =>
      assert Flatten(b) + [EndNode] == [Nop] + (Flatten(rest) + [EndNode]);
      OccursSplit(ts, i, [Nop], Flatten(rest) + [EndNode]);
      OccursOne(ts, i, Nop);
      SearchBody(ts, strs, i + 1, rest, name);
    case ANode(inner, body, rest) => OccursNode(ts, i, inner, Flatten(body), Flatten(rest));
  }

  /** The same from the beginning of a node on. */
  lemma SearchNode(ts: seq<Token>, strs: Bytes, i: nat, node: Bytes, body: Body, name: Bytes)
    requires Occurs(ts, i, Flatten(ANode(node, body, Empty)))
    ensures i < |ts| && ts[i].Begin?
    ensures var r := FindProp(ts, strs, i + 1, name); if HasProp(body, strs, name) then r.Found? else r == NotFound
  {
    hide Occurs;
    var f := Flatten(body);
    assert Flatten(ANode(node, body, Empty)) == [Begin(node)] + (f + [EndNode]);
    hide Flatten;
    OccursSplit(ts, i, [Begin(node)], f + [EndNode]);
    OccursOne(ts, i, Begin(node));
    SearchBody(ts, strs, i + 1, body, name);
  }

  lemma {:induction false} MatchNest(ts: seq<Token>, i: nat, d: nat)
    requires i <= |ts|
    ensures MatchEnd(ts, i, d).Some? ==> i < MatchEnd(ts, i, d).v <= |ts|
    ensures MatchEnd(ts, i, d + 1)
            == (match MatchEnd(ts, i, d) case None => None case Some(m) => if m <= |ts| then MatchEnd(ts, m, 0)
                else None)
    decreases |ts| - i
  {
    if i < |ts| {
      match ts[i]
      case Begin(_) => MatchNest(ts, i + 1, d + 1);
      case EndNode => if d > 0 { MatchNest(ts, i + 1, d - 1); }
      case _ => MatchNest(ts, i + 1, d);
    }
  }

  lemma Behead(ts: seq<Token>, i: nat, e: nat)
    requires i < e <= |ts|
    ensures ts[i..e] == [ts[i]] + ts[i + 1..e]
  {}

  lemma Pieces(ts: seq<Token>, i: nat, m: nat, e: nat)
    requires i + 1 < m <= e <= |ts|
    ensures ts[i..e] == [ts[i]] + ts[i + 1..m - 1] + [ts[m - 1]] + ts[m..e]
  {
    Behead(ts, i, e);
    assert ts[i + 1..e] == ts[i + 1..m - 1] + ts[m - 1..e];
    Behead(ts, m - 1, e);
  }

  /** What lies before the end so found is the body of a node, and nothing else. */
  lemma {:induction false} MatchIsBody(ts: seq<Token>, i: nat) returns (b: Body)
    requires i <= |ts| && Fin !in ts && MatchEnd(ts, i, 0).Some?
    ensures var e := MatchEnd(ts, i, 0).v; i < e <= |ts| && Flatten(b) == ts[i..e - 1] && ts[e - 1] == EndNode
    decreases |ts| - i
  {
    var e := MatchEnd(ts, i, 0).v;
    MatchNest(ts, i, 0);
    if ts[i].EndNode? {
      b := Empty;
    } else if ts[i].Begin? {
      b := MatchIsNode(ts, i);
    } else {
      b := MatchIsBody(ts, i + 1);
      Behead(ts, i, e - 1);
      b := if ts[i].Prop? then AProp(ts[i].off, ts[i].value, b) else ANop(b);
    }
  }

  lemma {:induction false} MatchIsNode(ts: seq<Token>, i: nat) returns (b: Body)
    requires i < |ts| && Fin !in ts && MatchEnd(ts, i, 0).Some? && ts[i].Begin?
    ensures var e := MatchEnd(ts, i, 0).v; i < e <= |ts| && Flatten(b) == ts[i..e - 1] && ts[e - 1] == EndNode
    decreases |ts| - i, 0
  {
    hide MatchEnd;
    var e := MatchEnd(ts, i, 0).v;
    var m := MatchInner(ts, i);
    var body := MatchIsBody(ts, i + 1);
    var rest := MatchIsBody(ts, m);
    b := ANode(ts[i].name, body, rest);
    assert Flatten(b) == [ts[i]] + Flatten(body) + [ts[m - 1]] + Flatten(rest);
    hide Flatten;
    Pieces(ts, i, m, e - 1);
  }

  lemma MatchInner(ts: seq<Token>, i: nat) returns (m: nat)
    requires i < |ts| && MatchEnd(ts, i, 0).Some? && ts[i].Begin?
    ensures MatchEnd(ts, i + 1, 0) == Some(m) && i + 1 < m <= |ts| && MatchEnd(ts, m, 0) == MatchEnd(ts, i, 0)
  {
    assert MatchEnd(ts, i, 0) == MatchEnd(ts, i + 1, 1);
    MatchNest(ts, i + 1, 0);
    m := MatchEnd(ts, i + 1, 0).v;
  }

  // ----- reading tokens -----

  /** What the walk reads at token `k` of a finished tree; the end tag is token `|ts|`. */
  lemma TokenRead(block: Bytes, ts: seq<Token>, k: nat)
    requires Encodes(block, ts + [Fin]) && k <= |ts|
    ensures var (o, t) := (Total(ts[..k]), if k < |ts| then ts[k] else Fin);
            && o + Size(t) <= |block| && o % 4 == 0 && IsToken(block[o..o + Size(t)], t)
            && NextTag(block, o) == Step(TagOf(t), o + Size(t)) && (k < |ts| ==> Total(ts[..k + 1]) == o + Size(t))
  {
    hide IsToken, Encodes, NextTag, Total, Size;
    TokenCut(block, ts, k);
    TotalAligned(ts[..k]);
    NextAt(block, Total(ts[..k]), if k < |ts| then ts[k] else Fin);
    if k < |ts| { FdtWriter.TotalNext(ts, k); }
  }

  lemma TokenCut(block: Bytes, ts: seq<Token>, k: nat)
    requires Encodes(block, ts + [Fin]) && k <= |ts|
    ensures var (o, t) := (Total(ts[..k]), if k < |ts| then ts[k] else Fin);
            && o + Size(t) <= |block| && Encodes(block[..o], ts[..k]) && IsToken(block[o..o + Size(t)], t)
            && (k < |ts| ==> Encodes(block[o + Size(t)..], ts[k + 1..] + [Fin]))
  {
    hide IsToken, Encodes, Total, Size;
    TokenAround(ts, k);
    if k < |ts| {
      Cut(block, ts[..k], ts[k], ts[k + 1..] + [Fin]);
    } else {
      Cut(block, ts[..k], Fin, []);
    }
  }

  lemma TokenAround(ts: seq<Token>, k: nat)
    requires k <= |ts|
    ensures k < |ts| ==> ts + [Fin] == ts[..k] + ([ts[k]] + (ts[k + 1..] + [Fin]))
    ensures k == |ts| ==> ts + [Fin] == ts[..k] + ([Fin] + [])
  {}

  lemma PropRead(block: Bytes, o: nat, t: Token)
    requires t.Prop? && o % 4 == 0 && o + Size(t) <= |block| && IsToken(block[o..o + Size(t)], t)
    ensures o + 12 <= |block| && Value(block[o + 4..o + 8]) == |t.value| && Value(block[o + 8..o + 12]) == t.off
  {
    hide Value, Word, IsToken;
    NextProp(block, o, t);
    PropProper(block[o..o + Size(t)], t);
    ValueWord(|t.value|);
    ValueWord(t.off);
  }

  lemma PropProper(b: Bytes, t: Token)
    requires t.Prop? && IsToken(b, t)
    ensures t.off < MAX && |t.value| < MAX
  {}

  /** The search for a property: `node` is the offset of token `i`, `off` that of the property found. */
  method FindProperty(block: Bytes, strs: Bytes, node: nat, name: Bytes, ghost ts: seq<Token>, ghost i: nat)
      returns (isNode: bool, r: Found, off: nat)
    requires Encodes(block, ts + [Fin]) && Fin !in ts && i <= |ts| && node == Total(ts[..i])
    ensures isNode == (i < |ts| && ts[i].Begin?)
    ensures isNode ==> && i < |ts| && r.Found? == FindProp(ts, strs, i + 1, name).Found?
                       && r.Broken? == FindProp(ts, strs, i + 1, name).Broken?
    ensures isNode && r.Found? ==> var j := FindProp(ts, strs, i + 1, name).i; j < |ts| && off == Total(ts[..j])
  {
    hide Encodes, NextTag, Total, IsToken, Value, GetString;
    TokenRead(block, ts, i);
    var s := ReadTag(block, node);
    off := 0;
    isNode := s.Step? && s.tag == BEGIN_NODE;
    r := NotFound;
    if !isNode { return; }
    off := s.next;
    ghost var k := i + 1;
    while true
      invariant i < k <= |ts| && off == Total(ts[..k]) && FindProp(ts, strs, k, name) == FindProp(ts, strs, i + 1, name)
      decreases |ts| - k
    {
      TokenRead(block, ts, k);
      s := ReadTag(block, off);
      if !s.Step? || s.tag == END { return isNode, Broken, off; }
      if s.tag == PROP {
        PropRead(block, off, ts[k]);
        if GetString(strs, Value(block[off + 8..off + 12])) == Some(name) { return isNode, Found(0), off; }
      } else if s.tag != NOP {
        return isNode, NotFound, off;
      }
      off := s.next;
      k := k + 1;
    }
  }

  // ----- replacing a range of tokens -----

  /** The tokens from `i` to `e` replaced by `m`. */
  function Edit(ts: seq<Token>, i: nat, e: nat, m: seq<Token>): seq<Token>
    requires i <= e <= |ts|
  {
    ts[..i] + m + ts[e..]
  }

  lemma SplitAt(block: Bytes, ts: seq<Token>, k: nat)
    requires Encodes(block, ts + [Fin]) && k <= |ts|
    ensures var o := Total(ts[..k]);
            o <= |block| && Encodes(block[..o], ts[..k]) && Encodes(block[o..], ts[k..] + [Fin])
  {
    hide Encodes, Total;
    assert ts + [Fin] == ts[..k] + (ts[k..] + [Fin]);
    EncodesSplit(block, ts[..k], ts[k..] + [Fin]);
  }

  lemma TotalUpTo(ts: seq<Token>, i: nat, e: nat)
    requires i <= e <= |ts|
    ensures Total(ts[..e]) == Total(ts[..i]) + Total(ts[i..e])
  {
    hide Total;
    assert ts[..e] == ts[..i] + ts[i..e];
    TotalConcat(ts[..i], ts[i..e]);
  }

  lemma EditedBytes(block: Bytes, ts: seq<Token>, i: nat, e: nat, mid: Bytes, m: seq<Token>)
    requires Encodes(block, ts + [Fin]) && i <= e <= |ts| && Encodes(mid, m)
    ensures var (o1, o2) := (Total(ts[..i]), Total(ts[..e]));
            o1 <= o2 <= |block| && Encodes(block[..o1] + mid + block[o2..], Edit(ts, i, e, m) + [Fin])
  {
    hide Encodes, Total;
    var (o1, o2) := (Total(ts[..i]), Total(ts[..e]));
    SplitAt(block, ts, i);
    SplitAt(block, ts, e);
    TotalUpTo(ts, i, e);
    EncodesConcat(block[..o1], ts[..i], mid, m);
    EncodesConcat(block[..o1] + mid, ts[..i] + m, block[o2..], ts[e..] + [Fin]);
    assert ts[..i] + m + (ts[e..] + [Fin]) == Edit(ts, i, e, m) + [Fin];
  }

  lemma EditedEvents(ts: seq<Token>, strs: Bytes, i: nat, e: nat, m: seq<Token>)
    requires i <= e <= |ts| && EventsOf(ts, strs).Some? && EventsOf(m, strs).Some?
    ensures EventsOf(ts[..i], strs).Some? && EventsOf(ts[i..e], strs).Some? && EventsOf(ts[e..], strs).Some?
    ensures var (a, b, c) := (EventsOf(ts[..i], strs).v, EventsOf(ts[i..e], strs).v, EventsOf(ts[e..], strs).v);
            EventsOf(ts, strs) == Some(a + b + c)
                && EventsOf(Edit(ts, i, e, m), strs) == Some(a + EventsOf(m, strs).v + c)
  {
    hide EventsOf;
    assert ts == ts[..i] + ts[i..e] + ts[e..];
    EventsConcat(ts[..i] + ts[i..e], ts[e..], strs);
    EventsConcat(ts[..i], ts[i..e], strs);
    EventsConcat(ts[..i] + m, ts[e..], strs);
    EventsConcat(ts[..i], m, strs);
  }

  /** What a tree tells before token `i`, from there to token `e`, and behind. */
  ghost function Told(ts: seq<Token>, strs: Bytes, i: nat, e: nat): seq<Event>
    requires i <= e <= |ts|
  {
    var r := EventsOf(ts[i..e], strs);
    if r.None? then [] else r.v
  }

  /** Replacing tokens changes what they tell and nothing else. */
  lemma EditedTree(block: Bytes, strs: Bytes, ts: seq<Token>, events: seq<Event>, i: nat, e: nat, mid: Bytes,
                   m: seq<Token>)
    requires Tree(block, strs, ts, events) && i <= e <= |ts| && Encodes(mid, m) && Fin !in m && EventsOf(m, strs).Some?
    ensures var (o1, o2) := (Total(ts[..i]), Total(ts[..e]));
            && o1 <= o2 <= |block|
            && Tree(block[..o1] + mid + block[o2..], strs, Edit(ts, i, e, m),
                    Told(ts, strs, 0, i) + EventsOf(m, strs).v + Told(ts, strs, e, |ts|))
    ensures events == Told(ts, strs, 0, i) + Told(ts, strs, i, e) + Told(ts, strs, e, |ts|)
  {
    EditedBytes(block, ts, i, e, mid, m);
    EditedEvents(ts, strs, i, e, m);
    hide Encodes, EventsOf, Total;
    assert ts[0..i] == ts[..i] && ts[e..|ts|] == ts[e..];
  }

  /** From node `k` to the next one, or behind the end of the node `depth` levels up. */
  method NextNode(block: Bytes, node: nat, depth: nat, ghost ts: seq<Token>, ghost k: nat)
      returns (ok: bool, off: nat, deep: int, ghost k': nat)
    requires Encodes(block, ts + [Fin]) && Fin !in ts && k < |ts| && ts[k].Begin? && node == Total(ts[..k])
    ensures NodeFrom(ts, k + 1, depth) == if !ok then NoMore else if deep < 0 then Behind(k') else Next(k', deep)
    ensures ok && deep >= 0 ==>
              k < k' < |ts| && ts[k'].Begin? && off == Total(ts[..k'])
                  && MatchEnd(ts, k' + 1, deep) == MatchEnd(ts, k + 1, depth)
    ensures ok && deep < 0 ==> k < k' <= |ts| && MatchEnd(ts, k + 1, depth) == Some(k') && off == Total(ts[..k'])
    ensures ok ==> forall j :: k < j < k' ==> !ts[j].Begin?
    ensures !ok ==> MatchEnd(ts, k + 1, depth) == None
  {
    hide Encodes, NextTag, Total, IsToken;
    TokenRead(block, ts, k);
    var s := ReadTag(block, node);
    off, deep, k' := s.next, depth, k + 1;
    while true
      invariant k < k' <= |ts| && off == Total(ts[..k']) && deep >= 0
                && MatchEnd(ts, k', deep) == MatchEnd(ts, k + 1, depth)
      invariant NodeFrom(ts, k', deep) == NodeFrom(ts, k + 1, depth) && forall j :: k < j < k' ==> !ts[j].Begin?
      decreases |ts| - k'
    {
      TokenRead(block, ts, k');
      s := ReadTag(block, off);
      if !s.Step? || s.tag == END { return false, off, deep, k'; }
      if s.tag == BEGIN_NODE { return true, off, deep + 1, k'; }
      if s.tag == END_NODE {
        deep := deep - 1;
        if deep < 0 { return true, s.next, deep, k' + 1; }
      }
      off := s.next;
      k' := k' + 1;
    }
  }

  /** The offset behind the end of the node at token `i`. */
  method NodeEndOffset(block: Bytes, node: nat, ghost ts: seq<Token>, ghost i: nat) returns (ok: bool, end: nat)
    requires Encodes(block, ts + [Fin]) && Fin !in ts && i < |ts| && ts[i].Begin? && node == Total(ts[..i])
    ensures ok == MatchEnd(ts, i + 1, 0).Some?
    ensures ok ==> MatchEnd(ts, i + 1, 0).v <= |ts| && end == Total(ts[..MatchEnd(ts, i + 1, 0).v])
  {
    hide Encodes, Total, MatchEnd;
    var depth := 0;
    ok, end := true, node;
    ghost var k := i;
    while ok && depth >= 0
      invariant ok && depth >= 0 ==>
                  i <= k < |ts| && ts[k].Begin? && end == Total(ts[..k])
                      && MatchEnd(ts, k + 1, depth) == MatchEnd(ts, i + 1, 0)
      invariant ok && depth < 0 ==> k <= |ts| && MatchEnd(ts, i + 1, 0) == Some(k) && end == Total(ts[..k])
      invariant !ok ==> MatchEnd(ts, i + 1, 0) == None
      decreases ok && depth >= 0, |ts| - k
    {
      ok, end, depth, k := NextNode(block, end, depth, ts, k);
    }
  }

  // ----- the blob -----

  function Sub(b: Bytes, at: nat, n: nat): (r: Bytes)
    requires at + n <= |b|
    ensures |r| == n
  {
    b[at..at + n]
  }

  lemma MovedTail(b: Bytes, offS: nat, st: nat, offT: nat, ss: nat, o: nat, was: nat, now: nat)
    requires offS + st <= offT && offT + ss <= |b| && o + was <= st && offT + ss - was + now <= |b|
    ensures var p := offS + o;
            var b' := Put(b, p + now, b[p + was..offT + ss]);
            && b'[offS..p] == b[offS..p] && b'[p + now..offS + (st - was + now)] == b[p + was..offS + st]
            && b'[offT - was + now..offT - was + now + ss] == b[offT..offT + ss]
  {
    var (p, tail) := (offS + o, b[offS + o + was..offT + ss]);
    var b' := Put(b, p + now, tail);
    PutBelow(b, p + now, tail, offS, p);
    PutHere(b, p + now, tail);
    hide Put;
    Slice(b', p + now, |tail|, 0, st - o - was);
    Slice(b', p + now, |tail|, offT - p - was, |tail|);
    Slice(b, p + was, |tail|, 0, st - o - was);
    Slice(b, p + was, |tail|, offT - p - was, |tail|);
  }

  /** The same, seen from the two blocks. */
  lemma MovedBlocks(b: Bytes, offS: nat, st: nat, offT: nat, ss: nat, o: nat, was: nat, now: nat)
    requires offS + st <= offT && offT + ss <= |b| && o + was <= st && offT + ss - was + now <= |b|
    ensures var (b', st') := (Put(b, offS + o + now, b[offS + o + was..offT + ss]), st - was + now);
            && Sub(b', offS, st')[..o] == Sub(b, offS, st)[..o]
            && Sub(b', offS, st')[o + now..] == Sub(b, offS, st)[o + was..]
            && Sub(b', offT - was + now, ss) == Sub(b, offT, ss)
  {
    hide Put;
    MovedTail(b, offS, st, offT, ss, o, was, now);
    var (b', st') := (Put(b, offS + o + now, b[offS + o + was..offT + ss]), st - was + now);
    Slice(b, offS, st, 0, o);
    Slice(b, offS, st, o + was, st);
    Slice(b', offS, st', 0, o);
    Slice(b', offS, st', o + now, st');
  }

  datatype Result = Ok | NoSpace | BadOffset | Malformed | Absent

  /** The block put together again around the bytes from `o` to `e`. */
  lemma Around(b: Bytes, o: nat, e: nat)
    requires o <= e <= |b|
    ensures b == b[..o] + b[o..e] + b[e..]
  {}

  lemma SubPut(b: Bytes, at: nat, d: Bytes, i: nat, n: nat)
    requires at + |d| <= |b| && i + n <= |b|
    ensures i + n <= at || at + |d| <= i ==> Sub(Put(b, at, d), i, n) == Sub(b, i, n)
    ensures i == at && n == |d| ==> Sub(Put(b, at, d), i, n) == d
  {
    if i + n <= at { PutBelow(b, at, d, i, i + n); }
    if at + |d| <= i { PutAbove(b, at, d, i, i + n); }
    if i == at && n == |d| { PutHere(b, at, d); }
  }

  /** New length and new value stored in a property; the rest of it stays. */
  lemma TwoPuts(b1: Bytes, o: nat, w: Bytes, value: Bytes, end: nat)
    requires |w| == 4 && o + 12 + |value| <= end <= |b1|
    ensures var b3 := Put(Put(b1, o + 4, w), o + 12, value);
            && Sub(b3, 0, o) == Sub(b1, 0, o) && Sub(b3, o, 4) == Sub(b1, o, 4) && Sub(b3, o + 4, 4) == w
            && Sub(b3, o + 8, 4) == Sub(b1, o + 8, 4) && Sub(b3, o + 12, |value|) == value
            && Sub(b3, end, |b1| - end) == Sub(b1, end, |b1| - end)
  {
    hide Sub, Put;
    var b2 := Put(b1, o + 4, w);
    SubPut(b1, o + 4, w, 0, o);
    SubPut(b2, o + 12, value, 0, o);
    SubPut(b1, o + 4, w, o, 4);
    SubPut(b2, o + 12, value, o, 4);
    SubPut(b1, o + 4, w, o + 4, 4);
    SubPut(b2, o + 12, value, o + 4, 4);
    SubPut(b1, o + 4, w, o + 8, 4);
    SubPut(b2, o + 12, value, o + 8, 4);
    SubPut(b2, o + 12, value, o + 12, |value|);
    SubPut(b1, o + 4, w, end, |b1| - end);
    SubPut(b2, o + 12, value, end, |b1| - end);
  }

  /** A property whose data have been given room for `value`, with the new length and value stored. */
  lemma Resized(b: Bytes, b1: Bytes, o: nat, t: Token, value: Bytes)
    requires t.Prop? && |value| < MAX && o + Size(t) <= |b| && IsToken(b[o..o + Size(t)], t)
    requires |b1| == |b| - Size(t) + Size(Prop(t.off, value)) && b1[..o + 12] == b[..o + 12]
    requires b1[o + 12 + Align(|value|)..] == b[o + 12 + Align(|t.value|)..]
    ensures var (t', n') := (Prop(t.off, value), Size(Prop(t.off, value)));
            var b3 := Put(Put(b1, o + 4, Word(|value|)), o + 12, value);
            && IsToken(b3[o..o + n'], t') && b3[..o] == b[..o] && b3[o + n'..] == b[o + Size(t)..]
  {
    hide Word, Put;
    var n := 12 + Align(|value|);
    PropHead(b, o, t);
    hide IsToken;
    PutHead(b, b1, o);
    TwoPuts(b1, o, Word(|value|), value, o + n);
    var b3 := Put(Put(b1, o + 4, Word(|value|)), o + 12, value);
    PropFrom(b3, o, t.off, value);
    assert b3[..o] == Sub(b3, 0, o) && b1[..o] == Sub(b1, 0, o);
    assert b3[o + n..] == Sub(b3, o + n, |b1| - (o + n)) && b1[o + n..] == Sub(b1, o + n, |b1| - (o + n));
  }

  lemma PropHead(b: Bytes, o: nat, t: Token)
    requires t.Prop? && o + Size(t) <= |b| && IsToken(b[o..o + Size(t)], t)
    ensures b[o..o + 4] == Word(PROP) && t.off < MAX && b[o + 8..o + 12] == Word(t.off)
  {
    hide Word;
    Slice(b, o, Size(t), 0, 4);
    Slice(b, o, Size(t), 8, 12);
  }

  lemma PutHead(b: Bytes, b1: Bytes, o: nat)
    requires o + 12 <= |b| && o + 12 <= |b1| && b1[..o + 12] == b[..o + 12]
    ensures b1[o..o + 4] == b[o..o + 4] && b1[o + 8..o + 12] == b[o + 8..o + 12] && b1[..o] == b[..o]
  {
    Slice(b, 0, o + 12, o, o + 4);
    Slice(b1, 0, o + 12, o, o + 4);
    Slice(b, 0, o + 12, o + 8, o + 12);
    Slice(b1, 0, o + 12, o + 8, o + 12);
    Slice(b, 0, o + 12, 0, o);
    Slice(b1, 0, o + 12, 0, o);
  }

  lemma PropFrom(b: Bytes, o: nat, off: nat, value: Bytes)
    requires off < MAX && |value| < MAX && o + Size(Prop(off, value)) <= |b|
    requires b[o..o + 4] == Word(PROP) && b[o + 4..o + 8] == Word(|value|) && b[o + 8..o + 12] == Word(off)
    requires b[o + 12..o + 12 + |value|] == value
    ensures IsToken(b[o..o + Size(Prop(off, value))], Prop(off, value))
  {
    hide Word;
    var n := Size(Prop(off, value));
    Slice(b, o, n, 0, 4);
    Slice(b, o, n, 4, 8);
    Slice(b, o, n, 8, 12);
    Slice(b, o, n, 12, 12 + |value|);
  }

  /** A new property stored at `o`, where `b1` has room for it. */
  lemma NewProp(b1: Bytes, o: nat, off: nat, value: Bytes)
    requires off < MAX && |value| < MAX && o + Size(Prop(off, value)) <= |b1|
    ensures var (d, n) := (Word(PROP) + Word(|value|) + Word(off) + value, Size(Prop(off, value)));
            && |d| <= n && IsToken(Put(b1, o, d)[o..o + n], Prop(off, value))
            && Put(b1, o, d)[..o] == b1[..o] && Put(b1, o, d)[o + n..] == b1[o + n..]
  {
    hide Word;
    var (d, n) := (Word(PROP) + Word(|value|) + Word(off) + value, Size(Prop(off, value)));
    var b := Put(b1, o, d);
    PutHere(b1, o, d);
    PutBelow(b1, o, d, 0, o);
    PutAbove(b1, o, d, o + n, |b1|);
    hide Put;
    Slice(b, o, n, 0, |d|);
    FdtWriter.PropBytes(b[o..o + n], off, value);
  }

  class Blob {
    const buf: array<Byte>
    const offStruct: nat
    var sizeStruct: nat
    var offStrings: nat
    var sizeStrings: nat
    ghost var ts: seq<Token>
    ghost var events: seq<Event>

    /** The structure block, then the strings block, then free room. */
    ghost predicate Ordered()
      reads this
    {
      offStruct + sizeStruct <= offStrings && offStrings + sizeStrings <= buf.Length < MAX
    }

    ghost function Struct(): Bytes
      requires Ordered()
      reads this, buf
    {
      Sub(buf[..], offStruct, sizeStruct)
    }

    ghost function Strs(): Bytes
      requires Ordered()
      reads this, buf
    {
      Sub(buf[..], offStrings, sizeStrings)
    }

    ghost predicate Valid()
      reads this, buf
    {
      Ordered() && Tree(Struct(), Strs(), ts, events)
    }

    /** A buffer that holds a finished tree, such as the writer leaves. */
    constructor (buf: array<Byte>, offStruct: nat, sizeStruct: nat, offStrings: nat, sizeStrings: nat,
                 ghost ts: seq<Token>, ghost events: seq<Event>)
      requires offStruct + sizeStruct <= offStrings && offStrings + sizeStrings <= buf.Length < MAX
      requires Tree(buf[..][offStruct..offStruct + sizeStruct], buf[..][offStrings..offStrings + sizeStrings], ts,
               events)
      ensures Valid() && this.buf == buf && this.ts == ts && this.events == events
    {
      this.buf, this.offStruct, this.sizeStruct, this.offStrings, this.sizeStrings := buf, offStruct, sizeStruct,
          offStrings, sizeStrings;
      this.ts, this.events := ts, events;
    }

    /** Replacing `was` bytes of structure at `o` by room for `now` bytes, and moving all behind them. */
    method SpliceStruct(o: nat, was: nat, now: nat) returns (ok: bool)
      requires Ordered() && o + was <= sizeStruct
      modifies this`sizeStruct, this`offStrings, buf
      ensures Ordered() && ok == (old(offStrings) + sizeStrings - was + now <= buf.Length)
      ensures !ok ==> sizeStruct == old(sizeStruct) && offStrings == old(offStrings) && buf[..] == old(buf[..])
      ensures ok ==> && sizeStruct == old(sizeStruct) - was + now && offStrings == old(offStrings) - was + now
                     && Strs() == old(Strs())
      ensures ok ==> Struct()[..o] == old(Struct()[..o]) && Struct()[o + now..] == old(Struct()[o + was..])
    {
      hide Put, Sub;
      var dsize := offStrings + sizeStrings;
      ok := dsize - was + now <= buf.Length;
      if !ok { return; }
      var p := offStruct + o;
      ghost var b := buf[..];
      MovedBlocks(b, offStruct, sizeStruct, offStrings, sizeStrings, o, was, now);
      Store(buf, p + now, buf[..][p + was..dsize]);
      sizeStruct := sizeStruct - was + now;
      offStrings := offStrings - was + now;
    }

    method StoreStruct(o: nat, d: Bytes)
      requires Ordered() && o + |d| <= sizeStruct
      modifies buf
      ensures Struct() == Put(old(Struct()), o, d) && Strs() == old(Strs())
    {
      hide Put;
      FdtWriter.PutInside(buf[..], offStruct, sizeStruct, o, d);
      PutAbove(buf[..], offStruct + o, d, offStrings, offStrings + sizeStrings);
      Store(buf, offStruct + o, d);
    }

    /** Giving the property at token `j` a new value in its place. */
    method ReplaceValue(o: nat, value: Bytes, ghost j: nat, ghost name: Bytes) returns (r: Result)
      requires Valid() && |value| < MAX && j < |ts| && ts[j].Prop? && o == Total(ts[..j])
               && GetString(Strs(), ts[j].off) == Some(name)
      modifies this, buf
      ensures Valid() && sizeStrings == old(sizeStrings)
      ensures r == if old(offStrings) + sizeStrings - Align(old(|ts[j].value|)) + Align(|value|) <= buf.Length then Ok
              else NoSpace
      ensures r != Ok ==> ts == old(ts) && events == old(events) && Struct() == old(Struct()) && Strs() == old(Strs())
      ensures r == Ok ==> ts == Edit(old(ts), j, j + 1, [Prop(old(ts[j].off), value)])
      ensures r == Ok ==>
                var (a, c) := (old(Told(ts, Strs(), 0, j)), old(Told(ts, Strs(), j + 1, |ts|)));
                old(events) == a + [Property(name, old(ts[j].value))] + c && events == a + [Property(name, value)] + c
    {
      hide Put, Sub, Tree, IsToken, Value, Word, Total;
      ghost var (b, strs, t) := (Struct(), Strs(), ts[j]);
      ghost var t' := Prop(t.off, value);
      PropThere(b, strs, ts, events, j);
      var was := Align(Value(buf[offStruct + o + 4..offStruct + o + 8]));
      var now := Align(|value|);
      assert buf[offStruct + o + 4..offStruct + o + 8] == b[o + 4..o + 8] by {
        SubSlice(buf[..], offStruct, sizeStruct, o + 4, o + 8);
      }
      var ok := SpliceStruct(o + 12, was, now);
      if !ok { return NoSpace; }
      ghost var b1 := Struct();
      StoreStruct(o + 4, Word(|value|));
      StoreStruct(o + 12, value);
      Resized(b, b1, o, t, value);
      OneEdited(b, strs, ts, events, j, Struct(), t', name, value);
      ts, events := Edit(ts, j, j + 1, [t']),
          Told(ts, strs, 0, j) + [Property(name, value)] + Told(ts, strs, j + 1, |ts|);
      r := Ok;
    }

    /** The offset of `name` in the strings block, where it is found or put behind the others. */
    method NameOffset(name: Bytes) returns (r: Option<nat>, added: bool)
      requires Valid() && 0 !in name
      modifies this`sizeStrings, buf
      ensures Valid() && Struct() == old(Struct())
      ensures added <==> old(forall p: nat :: !StringAt(Strs(), p, name))
      ensures r.Some? <==> !added || old(offStrings + sizeStrings) + |name| + 1 <= buf.Length
      ensures r.Some? ==> r.v < MAX && GetString(Strs(), r.v) == Some(name)
      ensures sizeStrings == old(sizeStrings) + (if added && r.Some? then |name| + 1 else 0)
      ensures Strs() == old(Strs()) + (if added && r.Some? then name + [0] else [])
    {
      hide Put, Sub, Tree, StringAt, GetString;
      var strs := Sub(buf[..], offStrings, sizeStrings);
      assert strs + [] == strs;
      r := FindString(strs, name);
      added := r.None?;
      if r.Some? {
        StringIs(strs, r.v, name);
        StringBound(strs, r.v, name);
        return;
      }
      var at := offStrings + sizeStrings;
      if at + |name| + 1 > buf.Length { return None, true; }
      ghost var b := Struct();
      AppendedString(buf[..], offStruct, sizeStruct, offStrings, sizeStrings, name);
      GrownTree(b, strs, ts, events, name + [0]);
      Store(buf, at, name + [0]);
      sizeStrings := sizeStrings + |name| + 1;
      r := Some(at - offStrings);
      LastString(strs, name);
    }

    /** Taking the last `n` bytes off the strings block again. */
    method TakeBack(n: nat)
      requires Ordered() && n <= sizeStrings
      modifies this`sizeStrings
      ensures Ordered() && sizeStrings == old(sizeStrings) - n && Struct() == old(Struct())
              && Strs() == old(Strs()[..sizeStrings - n])
    {
      hide Sub;
      SubSlice(buf[..], offStrings, sizeStrings, 0, sizeStrings - n);
      WholeSub(buf[..], offStrings, sizeStrings - n);
      sizeStrings := sizeStrings - n;
    }

    /** The name is in the strings block. */
    ghost predicate HasName(name: Bytes)
      requires Ordered()
      reads this, buf
    {
      exists p: nat :: StringAt(Strs(), p, name)
    }

    /** A new property, the first of the node that begins with token `i`; without room a name just added is taken
        back. */
    method InsertProperty(o: nat, name: Bytes, value: Bytes, ghost i: nat) returns (r: Result)
      requires Valid() && 0 !in name && |value| < MAX && i < |ts| && o == Total(ts[..i + 1])
      modifies this, buf
      ensures Valid()
      ensures var more := if old(HasName(name)) then 0 else |name| + 1;
              r == if old(offStrings + sizeStrings) + 12 + Align(|value|) + more <= buf.Length then Ok else NoSpace
      ensures r != Ok ==> ts == old(ts) && events == old(events) && Struct() == old(Struct()) && Strs() == old(Strs())
      ensures r == Ok ==>
                var (a, c) := (old(Told(ts, Strs(), 0, i + 1)), old(Told(ts, Strs(), i + 1, |ts|)));
                old(events) == a + c && events == a + [Property(name, value)] + c && old(Strs()) <= Strs()
    {
      hide Put, Sub, Tree, StringAt, GetString, Word, Total, IsToken;
      ghost var (b, strs0) := (Struct(), Strs());
      var off, added := NameOffset(name);
      if off.None? { return NoSpace; }
      ghost var strs := Strs();
      ghost var t := Prop(off.v, value);
      OffsetThere(b, strs, ts, events, i + 1);
      ToldGrow(b, strs0, ts, events, i + 1, strs);
      var ok := SpliceStruct(o, 0, 12 + Align(|value|));
      if !ok {
        if added { TakeBack(|name| + 1); }
        return NoSpace;
      }
      ghost var b1 := Struct();
      NewProp(b1, o, off.v, value);
      StoreStruct(o, Word(PROP) + Word(|value|) + Word(off.v) + value);
      OneInserted(b, strs, ts, events, i + 1, Struct(), t, name, value);
      ts, events := Edit(ts, i + 1, i + 1, [t]),
          Told(ts, strs, 0, i + 1) + [Property(name, value)] + Told(ts, strs, i + 1, |ts|);
      r := Ok;
    }

    /** Setting a property of the node at offset `node`, which is that of token `i`: exactly one property
        changes, in its place or as the first of the node; on any error the tree stays as it was. */
    method SetProperty(node: nat, name: Bytes, value: Bytes, ghost i: nat) returns (r: Result)
      requires Valid() && 0 !in name && |value| < MAX && i < |ts| && node == Total(ts[..i])
      modifies this, buf
      ensures Valid()
      ensures r != Ok ==> ts == old(ts) && events == old(events) && Struct() == old(Struct()) && Strs() == old(Strs())
      ensures r == BadOffset <==> !old(ts[i].Begin?)
      ensures old(ts[i].Begin?) ==>
                match old(FindProp(ts, Strs(), i + 1, name))
                case Broken => r == Malformed
                case Found(j) =>
                  && j < old(|ts|) && old(ts[j].Prop?)
                  && r == (if old(offStrings + sizeStrings) - Align(|old(ts)[j].value|) + Align(|value|) <= buf.Length
                       then Ok else NoSpace)
                  && (r == Ok ==> var (a, c) := (old(Told(ts, Strs(), 0, j)), old(Told(ts, Strs(), j + 1, |ts|)));
                        && old(events) == a + [Property(name, old(ts[j].value))] + c
                        && events == a + [Property(name, value)] + c)
                case NotFound =>
                  var more := if old(HasName(name)) then 0 else |name| + 1;
                  && r == (if old(offStrings + sizeStrings) + 12 + Align(|value|) + more <= buf.Length
                           then Ok else NoSpace)
                  && (r == Ok ==> var (a, c) := (old(Told(ts, Strs(), 0, i + 1)), old(Told(ts, Strs(), i + 1, |ts|)));
                        old(events) == a + c && events == a + [Property(name, value)] + c)
    {
      hide Tree, Sub, FindProp, Told, GetString, Total;
      var off, len;
      ghost var j;
      r, off, len, j := Locate(node, name, i);
      if r == Ok {
        r := ReplaceValue(off, value, j, name);
      } else if r == Absent {
        TreeTokens(Struct(), Strs(), ts, events);
        NextOffset(Struct(), ts, i);
        var s := ReadTag(Sub(buf[..], offStruct, sizeStruct), node);
        r := InsertProperty(s.next, name, value, i);
      }
    }

    /** Taking the tokens from `i` to `j` out of the tree. */
    method RemoveRange(o: nat, e: nat, ghost i: nat, ghost j: nat)
      requires Valid() && i <= j <= |ts| && o == Total(ts[..i]) && e == Total(ts[..j])
      modifies this, buf
      ensures Valid() && ts == Edit(old(ts), i, j, []) && Strs() == old(Strs())
      ensures var (a, c) := (old(Told(ts, Strs(), 0, i)), old(Told(ts, Strs(), j, |ts|)));
              events == a + c && old(events) == a + old(Told(ts, Strs(), i, j)) + c
    {
      hide Tree, Sub, Put, Told, Total;
      ghost var (b, strs) := (Struct(), Strs());
      EditedTree(b, strs, ts, events, i, j, [], []);
      var ok := SpliceStruct(o, e - o, 0);
      assert Struct() == b[..o] + [] + b[e..] by { Around(Struct(), o, o); }
      events := Told(ts, strs, 0, i) + [] + Told(ts, strs, j, |ts|);
      ts := Edit(ts, i, j, []);
    }

    /** Overwriting the tokens from `i` to `j` with NOP tags, `len` bytes rounded up to words. */
    method NopRange(o: nat, len: nat, ghost i: nat, ghost j: nat)
      requires Valid() && i <= j <= |ts| && o == Total(ts[..i]) && o + Align(len) == Total(ts[..j])
      modifies this`ts, this`events, buf
      ensures Valid() && ts == Edit(old(ts), i, j, Nops(Align(len) / 4)) && Strs() == old(Strs())
      ensures var (a, c) := (old(Told(ts, Strs(), 0, i)), old(Told(ts, Strs(), j, |ts|)));
              events == a + c && old(events) == a + old(Told(ts, Strs(), i, j)) + c
    {
      hide Tree, Sub, Put, Told, Total, Word, Encodes, Align;
      ghost var (b, strs, m, n) := (Struct(), Strs(), Nops(Align(len) / 4), Align(len));
      OffsetThere(b, strs, ts, events, j);
      NopsTell(|m|, strs);
      ghost var was := buf[..];
      NopRegion(buf, offStruct + o, len);
      ghost var mid := buf[..][offStruct + o..offStruct + o + n];
      RegionBlocks(was, buf[..], offStruct, sizeStruct, offStrings, sizeStrings, o, n);
      EditedTree(b, strs, ts, events, i, j, mid, m);
      events := Told(ts, strs, 0, i) + [] + Told(ts, strs, j, |ts|);
      ts := Edit(ts, i, j, m);
    }

    /** Where the property called `name` of the node at token `i` lies, and how long it is. */
    method Locate(node: nat, name: Bytes, ghost i: nat) returns (r: Result, off: nat, len: nat, ghost j: nat)
      requires Valid() && i < |ts| && node == Total(ts[..i])
      ensures r in {Ok, BadOffset, Malformed, Absent} && (r == BadOffset <==> !ts[i].Begin?)
      ensures ts[i].Begin? ==>
                match FindProp(ts, Strs(), i + 1, name)
                case Broken => r == Malformed
                case NotFound => r == Absent
                case Found(k) => r == Ok && k == j
      ensures r == Ok ==>
                && j < |ts| && ts[j].Prop? && off == Total(ts[..j]) && len == |ts[j].value|
                && off + 12 + Align(len) == Total(ts[..j + 1])
                && GetString(Strs(), ts[j].off) == Some(name)
    {
      hide Tree, Sub, FindProp, GetString, Total, Value, IsToken;
      off, len, j := 0, 0, 0;
      TreeTokens(Struct(), Strs(), ts, events);
      FindPropIs(ts, Strs(), i + 1, name);
      var isNode, found;
      isNode, found, off := FindProperty(Sub(buf[..], offStruct, sizeStruct), Sub(buf[..], offStrings, sizeStrings),
          node, name, ts, i);
      r := if !isNode then BadOffset else if found.Broken? then Malformed else if found.NotFound? then Absent else Ok;
      if r == Ok {
        j := FindProp(ts, Strs(), i + 1, name).i;
        PropThere(Struct(), Strs(), ts, events, j);
        FdtWriter.TotalNext(ts, j);
        len := Value(Sub(buf[..], offStruct, sizeStruct)[off + 4..off + 8]);
      }
    }

    /** Deleting the property called `name` of a node; `nop` overwrites it instead. Either way the tree
        tells the same afterwards: all but that property. */
    method DropProperty(node: nat, name: Bytes, nop: bool, ghost i: nat) returns (r: Result)
      requires Valid() && i < |ts| && node == Total(ts[..i])
      modifies this, buf
      ensures Valid() && Strs() == old(Strs())
      ensures r != Ok ==> ts == old(ts) && events == old(events) && Struct() == old(Struct())
      ensures r == BadOffset <==> !old(ts[i].Begin?)
      ensures old(ts[i].Begin?) ==>
                match old(FindProp(ts, Strs(), i + 1, name))
                case Broken => r == Malformed
                case NotFound => r == Absent
                case Found(j) =>
                  && r == Ok && j < old(|ts|) && old(ts[j].Prop?)
                  && ts == Edit(old(ts), j, j + 1, if nop then Nops(Size(old(ts)[j]) / 4) else [])
                  && var (a, c) := (old(Told(ts, Strs(), 0, j)), old(Told(ts, Strs(), j + 1, |ts|)));
                     old(events) == a + [Property(name, old(ts[j].value))] + c && events == a + c
    {
      hide Tree, Sub, FindProp, GetString, Total, Told;
      var off, len;
      ghost var j;
      r, off, len, j := Locate(node, name, i);
      if r != Ok { return; }
      ToldProp(ts, Strs(), j, name);
      AlignSum(12, len);
      if nop {
        NopRange(off, 12 + len, j, j + 1);
      } else {
        RemoveRange(off, off + 12 + Align(len), j, j + 1);
      }
    }

    /** Deleting the node at offset `node` with all in it; `nop` overwrites it instead. Either way the
        tree tells the same afterwards: all but that node. */
    method DropNode(node: nat, nop: bool, ghost i: nat) returns (r: Result)
      requires Valid() && i < |ts| && node == Total(ts[..i])
      modifies this, buf
      ensures Valid() && Strs() == old(Strs())
      ensures r == if !old(ts[i].Begin?) then BadOffset else if old(MatchEnd(ts, i + 1, 0)).Some? then Ok else Malformed
      ensures r != Ok ==> ts == old(ts) && events == old(events) && Struct() == old(Struct())
      ensures r == Ok ==>
                var e := old(MatchEnd(ts, i + 1, 0)).v;
                && i < e <= old(|ts|)
                && ts == Edit(old(ts), i, e, if nop then Nops(Total(old(ts)[i..e]) / 4) else [])
                && var (a, c) := (old(Told(ts, Strs(), 0, i)), old(Told(ts, Strs(), e, |ts|)));
                   old(events) == a + old(Told(ts, Strs(), i, e)) + c && events == a + c
    {
      hide Tree, Sub, Put, Total, Told, MatchEnd;
      TreeTokens(Struct(), Strs(), ts, events);
      NextOffset(Struct(), ts, i);
      var s := ReadTag(Sub(buf[..], offStruct, sizeStruct), node);
      if s.tag != BEGIN_NODE { return BadOffset; }
      var ok, end := NodeEndOffset(Sub(buf[..], offStruct, sizeStruct), node, ts, i);
      if !ok { return Malformed; }
      ghost var e := MatchEnd(ts, i + 1, 0).v;
      MatchNest(ts, i + 1, 0);
      TotalUpTo(ts, i, e);
      AlignedLength(ts[i..e]);
      if nop {
        NopRange(node, end - node, i, e);
      } else {
        RemoveRange(node, end, i, e);
      }
      r := Ok;
    }
  }

  lemma AlignedLength(ts: seq<Token>)
    ensures Align(Total(ts)) == Total(ts)
  {
    TotalAligned(ts);
  }

  /** What is left of the tokens when NOPs are passed over, as every reader of the tree does. */
  function Clean(ts: seq<Token>): seq<Token> {
    if ts == [] then [] else (if ts[0].Nop? then [] else [ts[0]]) + Clean(ts[1..])
  }

  lemma {:induction false} CleanConcat(s: seq<Token>, t: seq<Token>)
    ensures Clean(s + t) == Clean(s) + Clean(t)
  {
    if s == [] {
      assert s + t == t;
    } else {
      assert (s + t)[1..] == s[1..] + t;
      CleanConcat(s[1..], t);
    }
  }

  lemma {:induction false} CleanNops(n: nat)
    ensures Clean(Nops(n)) == []
  {
    if n > 0 {
      assert Nops(n)[1..] == Nops(n - 1);
      CleanNops(n - 1);
    }
  }

  /** Deleting tokens and overwriting them with NOPs leave the same tree. */
  lemma DeleteOrNop(ts: seq<Token>, i: nat, e: nat, n: nat)
    requires i <= e <= |ts|
    ensures Clean(Edit(ts, i, e, Nops(n))) == Clean(Edit(ts, i, e, []))
  {
    CleanConcat(ts[..i] + Nops(n), ts[e..]);
    CleanConcat(ts[..i], Nops(n));
    CleanNops(n);
    CleanConcat(ts[..i] + [], ts[e..]);
    assert ts[..i] + [] == ts[..i];
    hide Clean;
  }

  /** Reading passes over NOPs: what a tree tells depends on nothing else. */
  lemma {:induction false} CleanTells(ts: seq<Token>, strs: Bytes)
    ensures EventsOf(Clean(ts), strs) == EventsOf(ts, strs)
  {
    hide EventOf;
    if ts != [] {
      CleanTells(ts[1..], strs);
      var rest := EventsOf(ts[1..], strs);
      if ts[0].Nop? {
        NopTells(strs);
        if rest.Some? { assert [] + rest.v == rest.v; }
        assert Clean(ts) == Clean(ts[1..]);
      } else {
        assert Clean(ts)[0] == ts[0] && Clean(ts)[1..] == Clean(ts[1..]);
      }
    }
  }

  lemma NopTells(strs: Bytes)
    ensures EventOf(Nop, strs) == Some([])
  {}

  /** Where token `i` is among the tokens that are no NOPs. */
  function CleanIndex(ts: seq<Token>, i: nat): nat
    requires i <= |ts|
  {
    |Clean(ts[..i])|
  }

  lemma CleanAt(ts: seq<Token>, i: nat)
    requires i < |ts|
    ensures CleanIndex(ts, i + 1) == CleanIndex(ts, i) + (if ts[i].Nop? then 0 else 1) <= |Clean(ts)|
    ensures !ts[i].Nop? ==> Clean(ts)[CleanIndex(ts, i)] == ts[i]
  {
    assert ts[..i + 1] == ts[..i] + [ts[i]] && ts == ts[..i + 1] + ts[i + 1..] && [ts[i]][1..] == [];
    CleanConcat(ts[..i], [ts[i]]);
    CleanConcat(ts[..i + 1], ts[i + 1..]);
  }

  lemma CleanEnd(ts: seq<Token>)
    ensures CleanIndex(ts, |ts|) == |Clean(ts)|
  {
    assert ts[..|ts|] == ts;
  }

  lemma CleanBound(ts: seq<Token>, i: nat)
    requires i <= |ts|
    ensures CleanIndex(ts, i) <= |Clean(ts)|
  {
    if i < |ts| { CleanAt(ts, i); } else { CleanEnd(ts); }
  }

  /** The search for a property finds the same one with NOPs and without. */
  lemma {:induction false} FindPropClean(ts: seq<Token>, strs: Bytes, i: nat, name: Bytes)
    requires i <= |ts|
    ensures CleanIndex(ts, i) <= |Clean(ts)|
    ensures var r := FindProp(ts, strs, i, name);
            && (r.Found? ==> i <= r.i < |ts|)
            && FindProp(Clean(ts), strs, CleanIndex(ts, i), name) == if r.Found? then Found(CleanIndex(ts, r.i)) else r
    decreases |ts| - i
  {
    hide GetString, Clean, CleanIndex;
    CleanBound(ts, i);
    if i == |ts| {
      CleanEnd(ts);
    } else {
      CleanAt(ts, i);
      FindPropClean(ts, strs, i + 1, name);
    }
  }

  /** Stepping from node to node goes to the same nodes, at the same depth. */
  lemma {:induction false} NodeFromClean(ts: seq<Token>, i: nat, d: nat)
    requires i <= |ts|
    ensures CleanIndex(ts, i) <= |Clean(ts)|
    ensures var r := NodeFrom(ts, i, d);
            && (r.Next? ==> i <= r.i < |ts|) && (r.Behind? ==> i < r.i <= |ts|)
            && NodeFrom(Clean(ts), CleanIndex(ts, i), d) ==
               match r
               case NoMore => NoMore
               case Next(k, depth) => Next(CleanIndex(ts, k), depth)
               case Behind(k) => Behind(CleanIndex(ts, k))
    decreases |ts| - i
  {
    hide Clean, CleanIndex;
    CleanBound(ts, i);
    if i == |ts| {
      CleanEnd(ts);
    } else {
      CleanAt(ts, i);
      if !ts[i].Begin? && !(ts[i].EndNode? && d == 0) { NodeFromClean(ts, i + 1, if ts[i].EndNode? then d - 1 else d); }
    }
  }

  /** Deleted or overwritten: from a place behind the tokens concerned, or before them, the property search
      and the step to the next node lead to the same place of what is left. */
  lemma SameReading(a: seq<Token>, b: seq<Token>, strs: Bytes, i: nat, j: nat, name: Bytes, d: nat)
    requires Clean(a) == Clean(b) && i <= |a| && j <= |b| && CleanIndex(a, i) == CleanIndex(b, j)
    ensures var (r, s) := (FindProp(a, strs, i, name), FindProp(b, strs, j, name));
            && (r.Found? <==> s.Found?) && (r.Broken? <==> s.Broken?)
            && (r.Found? ==> r.i < |a| && s.i < |b| && a[r.i] == b[s.i] && CleanIndex(a, r.i) == CleanIndex(b, s.i))
    ensures var (r, s) := (NodeFrom(a, i, d), NodeFrom(b, j, d));
            && (r.Next? <==> s.Next?) && (r.Behind? <==> s.Behind?)
            && (r.Next? ==> && r.i < |a| && s.i < |b| && a[r.i] == b[s.i] && r.depth == s.depth
                            && CleanIndex(a, r.i) == CleanIndex(b, s.i))
            && (r.Behind? ==> r.i <= |a| && s.i <= |b| && CleanIndex(a, r.i) == CleanIndex(b, s.i))
  {
    hide Clean, CleanIndex, GetString;
    FindPropClean(a, strs, i, name);
    FindPropClean(b, strs, j, name);
    FindPropIs(a, strs, i, name);
    FindPropIs(b, strs, j, name);
    var (r, s) := (FindProp(a, strs, i, name), FindProp(b, strs, j, name));
    if r.Found? {
      CleanAt(a, r.i);
      CleanAt(b, s.i);
    }
    NodeFromClean(a, i, d);
    NodeFromClean(b, j, d);
    NextIs(a, i, d);
    NextIs(b, j, d);
    var (n, m) := (NodeFrom(a, i, d), NodeFrom(b, j, d));
    if n.Next? {
      CleanAt(a, n.i);
      CleanAt(b, m.i);
    }
    hide FindProp, NodeFrom;
  }

  /** Which places of the two trees correspond: those before the tokens concerned, and those behind. */
  lemma EditPlaces(ts: seq<Token>, i: nat, e: nat, n: nat, k: nat, x: nat)
    requires k <= i <= e <= |ts| && e + x <= |ts|
    ensures var (nop, del) := (Edit(ts, i, e, Nops(n)), Edit(ts, i, e, []));
            && Clean(nop) == Clean(del) && k <= |nop| && k <= |del| && i + n + x <= |nop| && i + x <= |del|
            && CleanIndex(nop, k) == CleanIndex(del, k) && CleanIndex(nop, i + n + x) == CleanIndex(del, i + x)
  {
    hide Clean, Nops, Edit;
    DeleteOrNop(ts, i, e, n);
    var (a, c) := (ts[..i], ts[e..e + x]);
    assert |Nops(n)| == n by { NopsLength(n); }
    EditStart(ts, i, e, Nops(n), k, x);
    EditStart(ts, i, e, [], k, x);
    CleanConcat(a, Nops(n));
    CleanConcat(a + Nops(n), c);
    CleanConcat(a, c);
    CleanNops(n);
    assert a + [] == a;
  }

  lemma NopsLength(n: nat)
    ensures |Nops(n)| == n
  {}

  lemma EditStart(ts: seq<Token>, i: nat, e: nat, m: seq<Token>, k: nat, x: nat)
    requires k <= i <= e <= |ts| && e + x <= |ts|
    ensures var r := Edit(ts, i, e, m);
            k <= i + |m| + x <= |r| && r[..k] == ts[..k] && r[..i + |m| + x] == ts[..i] + m + ts[e..e + x]
  {}

  lemma {:induction false} NextIs(ts: seq<Token>, i: nat, d: nat)
    requires i <= |ts|
    ensures var r := NodeFrom(ts, i, d); r.Next? ==> i <= r.i < |ts| && ts[r.i].Begin? && forall k :: i <= k < r.i ==>
            !ts[k].Begin?
    decreases |ts| - i
  {
    if i < |ts| && !ts[i].Begin? && !(ts[i].EndNode? && d == 0) {
      NextIs(ts, i + 1, if ts[i].EndNode? then d - 1 else d);
    }
  }

  lemma ToldProp(ts: seq<Token>, strs: Bytes, j: nat, name: Bytes)
    requires j < |ts| && ts[j].Prop? && GetString(strs, ts[j].off) == Some(name)
    ensures Told(ts, strs, j, j + 1) == [Property(name, ts[j].value)]
  {
    assert ts[j..j + 1] == [ts[j]];
    FdtWriter.EventsOne(ts[j], strs);
    hide GetString, EventsOf;
  }

  /** Only the bytes from `offS + o` on, `n` of them, differ. */
  lemma RegionBlocks(b: Bytes, b': Bytes, offS: nat, st: nat, offT: nat, ss: nat, o: nat, n: nat)
    requires offS + st <= offT && offT + ss <= |b| == |b'| && o + n <= st
    requires b'[..offS + o] == b[..offS + o] && b'[offS + o + n..] == b[offS + o + n..]
    ensures Sub(b', offS, st) == Sub(b, offS, st)[..o] + b'[offS + o..offS + o + n] + Sub(b, offS, st)[o + n..]
    ensures Sub(b', offT, ss) == Sub(b, offT, ss)
  {
    hide Sub;
    var p := offS + o;
    SameSlice(b, b', 0, p, offS, p);
    SameSlice(b, b', p + n, |b|, p + n, offS + st);
    SameSlice(b, b', p + n, |b|, offT, offT + ss);
    SubParts(b, offS, st, o, n);
    SubParts(b', offS, st, o, n);
    WholeSub(b, offT, ss);
    WholeSub(b', offT, ss);
  }

  lemma SameSlice(b: Bytes, b': Bytes, lo: nat, hi: nat, i: nat, j: nat)
    requires lo <= i <= j <= hi <= |b| == |b'| && b'[lo..hi] == b[lo..hi]
    ensures b'[i..j] == b[i..j]
  {
    Slice(b, lo, hi - lo, i - lo, j - lo);
    Slice(b', lo, hi - lo, i - lo, j - lo);
  }

  lemma SubParts(b: Bytes, at: nat, st: nat, o: nat, n: nat)
    requires at + st <= |b| && o + n <= st
    ensures Sub(b, at, st) == b[at..at + o] + b[at + o..at + o + n] + b[at + o + n..at + st]
    ensures Sub(b, at, st)[..o] == b[at..at + o] && Sub(b, at, st)[o + n..] == b[at + o + n..at + st]
  {
    Around(Sub(b, at, st), o, o + n);
    Slice(b, at, st, 0, o);
    Slice(b, at, st, o, o + n);
    Slice(b, at, st, o + n, st);
  }

  /** Word by word until `len` bytes are covered. */
  method NopRegion(buf: array<Byte>, start: nat, len: nat)
    requires start + Align(len) <= buf.Length
    modifies buf
    ensures buf[..start] == old(buf[..start]) && buf[start + Align(len)..] == old(buf[start + Align(len)..])
    ensures Encodes(buf[..][start..start + Align(len)], Nops(Align(len) / 4))
  {
    hide Word, Encodes, Put;
    var p := 0;
    ghost var k := 0;
    ghost var was := buf[..];
    NoNops(was, start);
    while p < len
      invariant p == 4 * k && p <= Align(len)
      invariant buf[..][..start] == was[..start] && buf[..][start + p..] == was[start + p..]
      invariant Encodes(buf[..][start..start + p], Nops(k))
    {
      SameTail(was, buf[..], start + p);
      OneNop(buf[..], start, p, k);
      Store(buf, start + p, Word(NOP));
      assert start + p + 4 == start + (p + 4);
      p := p + 4;
      k := k + 1;
    }
    assert p == Align(len);
  }

  lemma SameTail(b: Bytes, b': Bytes, s: nat)
    requires s + 4 <= |b| == |b'| && b'[s..] == b[s..]
    ensures b'[s + 4..] == b[s + 4..]
  {
    assert b'[s + 4..] == b'[s..][4..] && b[s + 4..] == b[s..][4..];
  }

  lemma NoNops(b: Bytes, start: nat)
    requires start <= |b|
    ensures Encodes(b[start..start + 0], Nops(0))
  {}

  lemma OneNop(b: Bytes, start: nat, p: nat, k: nat)
    requires start + p + 4 <= |b| && Encodes(b[start..start + p], Nops(k))
    ensures var b' := Put(b, start + p, Word(NOP));
            && b'[..start] == b[..start] && b'[start + p + 4..] == b[start + p + 4..]
            && Encodes(b'[start..start + (p + 4)], Nops(k + 1))
  {
    hide Word, Encodes;
    var (at, w) := (start + p, Word(NOP));
    var b' := Put(b, at, w);
    PutBelow(b, at, w, 0, start);
    PutBelow(b, at, w, start, at);
    PutHere(b, at, w);
    PutAbove(b, at, w, at + 4, |b|);
    hide Put;
    FdtWriter.PlainBytes(w, Nop);
    EncodesOne(w, Nop);
    EncodesConcat(b'[start..at], Nops(k), w, [Nop]);
    assert Nops(k) + [Nop] == Nops(k + 1);
    assert b'[start..at] + b'[at..at + 4] == b'[start..start + (p + 4)];
    assert b'[..start] == b'[0..start] && b'[at + 4..] == b'[at + 4..|b|];
  }

  lemma {:induction false} NopsTell(n: nat, strs: Bytes)
    ensures EventsOf(Nops(n), strs) == Some([]) && Fin !in Nops(n)
  {
    if n > 0 {
      assert Nops(n)[1..] == Nops(n - 1);
      NopsTell(n - 1, strs);
      var none: seq<Event> := [];
      assert EventOf(Nop, strs) == Some(none) && none + none == none;
    }
  }

  function Nops(n: nat): (r: seq<Token>)
    ensures |r| == n
  {
    seq(n, _ => Nop)
  }

  lemma TreeTokens(b: Bytes, strs: Bytes, ts: seq<Token>, events: seq<Event>)
    requires Tree(b, strs, ts, events)
    ensures Encodes(b, ts + [Fin]) && Fin !in ts && EventsOf(ts, strs) == Some(events)
  {}

  lemma NextOffset(b: Bytes, ts: seq<Token>, i: nat)
    requires Encodes(b, ts + [Fin]) && i < |ts|
    ensures NextTag(b, Total(ts[..i])) == Step(TagOf(ts[i]), Total(ts[..i + 1]))
  {
    TokenRead(b, ts, i);
    hide Encodes;
  }

  lemma WholeSub(b: Bytes, at: nat, n: nat)
    requires at + n <= |b|
    ensures Sub(b, at, n) == b[at..at + n]
  {}

  lemma StringBound(strs: Bytes, p: nat, s: Bytes)
    requires StringAt(strs, p, s)
    ensures p < |strs|
  {}

  lemma AppendedString(b: Bytes, offS: nat, st: nat, offT: nat, ss: nat, name: Bytes)
    requires offS + st <= offT && offT + ss + |name| + 1 <= |b|
    ensures var b' := Put(b, offT + ss, name + [0]);
            && Sub(b', offS, st) == Sub(b, offS, st)
            && Sub(b', offT, ss + |name| + 1) == Sub(b, offT, ss) + (name + [0])
  {
    var (at, d) := (offT + ss, name + [0]);
    SubPut(b, at, d, offS, st);
    SubPut(b, at, d, offT, ss);
    SubPut(b, at, d, at, |d|);
    hide Put;
  }

  lemma LastString(strs: Bytes, name: Bytes)
    requires 0 !in name
    ensures GetString(strs + (name + [0]), |strs|) == Some(name)
  {
    var all := strs + (name + [0]);
    assert all[|strs|..|strs| + |name| + 1] == name + [0];
    StringIs(all, |strs|, name);
  }

  /** Names already there keep their meaning when the strings block grows. */
  lemma GrownTree(b: Bytes, strs: Bytes, ts: seq<Token>, events: seq<Event>, post: Bytes)
    requires Tree(b, strs, ts, events)
    ensures Tree(b, strs + post, ts, events)
  {
    EventsGrow(ts, strs, post);
    hide EventsOf, Encodes;
  }

  lemma OffsetThere(b: Bytes, strs: Bytes, ts: seq<Token>, events: seq<Event>, k: nat)
    requires Tree(b, strs, ts, events) && k <= |ts|
    ensures Total(ts[..k]) + 4 <= |b| && Total(ts[..k]) % 4 == 0
  {
    hide Encodes, EventsOf;
    TokenRead(b, ts, k);
  }

  lemma ToldGrow(b: Bytes, strs: Bytes, ts: seq<Token>, events: seq<Event>, k: nat, strs': Bytes)
    requires Tree(b, strs, ts, events) && k <= |ts| && strs <= strs'
    ensures Told(ts, strs', 0, k) == Told(ts, strs, 0, k) && Told(ts, strs', k, |ts|) == Told(ts, strs, k, |ts|)
  {
    assert ts[0..k] + ts[k..|ts|] == ts;
    EventsConcat(ts[0..k], ts[k..|ts|], strs);
    var post := strs'[|strs|..];
    assert strs' == strs + post;
    EventsGrow(ts[0..k], strs, post);
    EventsGrow(ts[k..|ts|], strs, post);
    hide EventsOf, Encodes;
  }

  lemma OneInserted(b: Bytes, strs: Bytes, ts: seq<Token>, events: seq<Event>, k: nat, b': Bytes, t: Token,
                    name: Bytes, value: Bytes)
    requires Tree(b, strs, ts, events) && k <= |ts| && t.Prop? && t.value == value
             && GetString(strs, t.off) == Some(name)
    requires var (o, n) := (Total(ts[..k]), Size(t));
             o <= |b| && o + n <= |b'| && IsToken(b'[o..o + n], t) && b'[..o] == b[..o] && b'[o + n..] == b[o..]
    ensures var (a, c) := (Told(ts, strs, 0, k), Told(ts, strs, k, |ts|));
            Tree(b', strs, Edit(ts, k, k, [t]), a + [Property(name, value)] + c) && events == a + c
  {
    assert ts[k..k] == [] && Told(ts, strs, k, k) == [];
    FdtWriter.EventsOne(t, strs);
    hide Tree, IsToken, GetString, Total, Encodes, EventsOf, Edit, Told;
    var (o, n) := (Total(ts[..k]), Size(t));
    EncodesOne(b'[o..o + n], t);
    EditedTree(b, strs, ts, events, k, k, b'[o..o + n], [t]);
    Around(b', o, o + n);
    assert Told(ts, strs, 0, k) + [] == Told(ts, strs, 0, k);
  }

  lemma SubSlice(b: Bytes, at: nat, n: nat, i: nat, j: nat)
    requires at + n <= |b| && i <= j <= n
    ensures Sub(b, at, n)[i..j] == b[at + i..at + j]
  {
    Slice(b, at, n, i, j);
  }

  lemma PropThere(b: Bytes, strs: Bytes, ts: seq<Token>, events: seq<Event>, j: nat)
    requires Tree(b, strs, ts, events) && j < |ts| && ts[j].Prop?
    ensures var o := Total(ts[..j]);
            && o % 4 == 0 && o + Size(ts[j]) <= |b| && IsToken(b[o..o + Size(ts[j])], ts[j])
            && Value(b[o + 4..o + 8]) == |ts[j].value| && ts[j].off < MAX
  {
    hide Encodes, EventsOf, IsToken, Value, Total;
    TokenRead(b, ts, j);
    PropRead(b, Total(ts[..j]), ts[j]);
    PropProper(b[Total(ts[..j])..Total(ts[..j]) + Size(ts[j])], ts[j]);
  }

  /** One property of the tree replaced by another of the same name. */
  lemma OneEdited(b: Bytes, strs: Bytes, ts: seq<Token>, events: seq<Event>, j: nat, b': Bytes, t': Token, name: Bytes,
                  value: Bytes)
    requires Tree(b, strs, ts, events) && j < |ts| && ts[j].Prop? && GetString(strs, ts[j].off) == Some(name)
             && t' == Prop(ts[j].off, value)
    requires var (o, n, n') := (Total(ts[..j]), Size(ts[j]), Size(t'));
             && o + n <= |b| && o + n' <= |b'| && IsToken(b'[o..o + n'], t') && b'[..o] == b[..o]
             && b'[o + n'..] == b[o + n..]
    ensures var (a, c) := (Told(ts, strs, 0, j), Told(ts, strs, j + 1, |ts|));
            && Tree(b', strs, Edit(ts, j, j + 1, [t']), a + [Property(name, value)] + c)
            && events == a + [Property(name, ts[j].value)] + c
  {
    hide Tree, IsToken, GetString, Total;
    var (o, n') := (Total(ts[..j]), Size(t'));
    FdtWriter.TotalNext(ts, j);
    FdtWriter.EventsOne(t', strs);
    ToldProp(ts, strs, j, name);
    hide Encodes, EventsOf, Edit, Told;
    EncodesOne(b'[o..o + n'], t');
    EditedTree(b, strs, ts, events, j, j + 1, b'[o..o + n'], [t']);
    Around(b', o, o + n');
  }
}
