/** The splay tree in memory: nodes whose links are rewritten in place, with a header node that holds
    the two trees being built. */
module SplayHeap {
  import opened SplayCost
  import opened SplayTree

  datatype Cell = Cell(left: Node?, right: Node?)

  type Mem = map<Node, Cell>

  function Link(c: Cell, d: Dir): Node? { if d == L then c.left else c.right }

  function WithLink(c: Cell, d: Dir, n: Node?): Cell { if d == L then c.(left := n) else c.(right := n) }

  function Set(m: Mem, x: Node, d: Dir, n: Node?): Mem
    requires x in m
  {
    m[x := WithLink(m[x], d, n)]
  }

  /** The tree `t` hangs at `n`. */
  ghost predicate Hangs(m: Mem, n: Node?, t: Tree) {
    match t
    case Nil => n == null
    case Bin(l, x, r) => n == x && x in m && Hangs(m, m[x].left, l) && Hangs(m, m[x].right, r)
  }

  /** The nodes of `hs` hang one below the other on side `d`, from `n` on; the last link is not looked at. */
  ghost predicate Chain(m: Mem, n: Node?, d: Dir, hs: seq<Half>) {
    hs != [] ==>
      && n == hs[0].x && hs[0].x in m && Hangs(m, Link(m[hs[0].x], Opp(d)), hs[0].tree)
      && Chain(m, Link(m[hs[0].x], d), d, hs[1..])
  }

  lemma {:induction false} HangsFrame(m: Mem, n: Node?, t: Tree, x: Node, c: Cell)
    requires Hangs(m, n, t) && x !in Elems(t)
    ensures Hangs(m[x := c], n, t)
  {
    if t.Bin? {
      HangsFrame(m, m[t.x].left, t.left, x, c);
      HangsFrame(m, m[t.x].right, t.right, x, c);
    }
  }

  lemma OuterFirst(d: Dir, hs: seq<Half>, x: Node)
    requires hs != []
    ensures x in Outer(d, hs) <==> x in Outer(d, hs[1..]) || x == hs[0].x || x in Elems(hs[0].tree)
  {}

  lemma {:induction false} ChainFrame(m: Mem, n: Node?, d: Dir, hs: seq<Half>, x: Node, c: Cell)
    requires Chain(m, n, d, hs) && x !in Outer(d, hs)
    ensures Chain(m[x := c], n, d, hs)
  {
    hide Outer;
    if hs != [] {
      OuterFirst(d, hs, x);
      HangsFrame(m, Link(m[hs[0].x], Opp(d)), hs[0].tree, x, c);
      ChainFrame(m, Link(m[hs[0].x], d), d, hs[1..], x, c);
    }
  }

  ghost predicate Distinct(s: seq<Node>) { forall i, j :: 0 <= i < j < |s| ==> s[i] != s[j] }

  function Last(hs: seq<Half>): Node
    requires hs != []
  {
    hs[|hs| - 1].x
  }

  /** The nodes of the chain are different from each other and from those in its subtrees. */
  ghost predicate Apart(d: Dir, hs: seq<Half>) {
    hs != [] ==>
      && hs[0].x !in Elems(hs[0].tree) && hs[0].x !in Outer(d, hs[1..]) && Apart(d, hs[1..])
      && forall x :: x in Elems(hs[0].tree) ==> x !in Outer(d, hs[1..])
  }

  lemma {:induction false} LastIn(d: Dir, hs: seq<Half>)
    requires hs != []
    ensures Last(hs) in Outer(d, hs)
  {
    hide Outer;
    OuterFirst(d, hs, Last(hs));
    if |hs| > 1 { LastIn(d, hs[1..]); }
  }

  /** Hanging `n` at the open end of a chain. */
  lemma {:induction false} ChainSet(m: Mem, top: Node?, d: Dir, hs: seq<Half>, n: Node?)
    requires Chain(m, top, d, hs) && Apart(d, hs) && hs != []
    ensures Last(hs) in m && Chain(Set(m, Last(hs), d, n), top, d, hs)
  {
    hide Outer;
    var (x, rest) := (hs[0].x, hs[1..]);
    if |hs| == 1 {
      HangsFrame(m, Link(m[x], Opp(d)), hs[0].tree, x, WithLink(m[x], d, n));
    } else {
      ChainSet(m, Link(m[x], d), d, rest, n);
      LastIn(d, rest);
      assert Last(hs) == Last(rest);
      HangsFrame(m, Link(m[x], Opp(d)), hs[0].tree, Last(hs), WithLink(m[Last(hs)], d, n));
    }
  }

  /** The open end filled: the chain has become a tree. */
  lemma {:induction false} ChainBuilt(m: Mem, top: Node?, d: Dir, hs: seq<Half>, t: Tree)
    requires Chain(m, top, d, hs) && (hs != [] ==> Last(hs) in m && Hangs(m, Link(m[Last(hs)], d), t))
             && (hs == [] ==> Hangs(m, top, t))
    ensures Hangs(m, top, Build(d, hs, t))
  {
    if hs != [] {
      ChainBuilt(m, Link(m[hs[0].x], d), d, hs[1..], t);
    }
  }

  lemma {:induction false} ChainAppend(m: Mem, top: Node?, d: Dir, hs: seq<Half>, h: Half)
    requires Chain(m, top, d, hs) && h.x in m && Hangs(m, Link(m[h.x], Opp(d)), h.tree)
    requires if hs == [] then top == h.x else Last(hs) in m && Link(m[Last(hs)], d) == h.x
    ensures Chain(m, top, d, hs + [h])
  {
    if hs == [] {
      assert [] + [h] == [h] && [h][1..] == [];
    } else {
      assert (hs + [h])[1..] == hs[1..] + [h];
      ChainAppend(m, Link(m[hs[0].x], d), d, hs[1..], h);
    }
  }

  // ----- no node in two places -----

  ghost predicate Disjoint(a: seq<Node>, b: seq<Node>) { forall x :: x in a ==> x !in b }

  lemma DistinctConcat(a: seq<Node>, b: seq<Node>)
    requires Distinct(a + b)
    ensures Distinct(a) && Distinct(b) && Disjoint(a, b) && Disjoint(b, a)
  {
    var s := a + b;
    assert forall i :: 0 <= i < |a| ==> s[i] == a[i];
    assert forall i :: 0 <= i < |b| ==> s[|a| + i] == b[i];
  }

  lemma DistinctCat(d: Dir, a: seq<Node>, b: seq<Node>)
    requires Distinct(Cat(d, a, b))
    ensures Distinct(a) && Distinct(b) && Disjoint(a, b) && Disjoint(b, a)
  {
    if d == L { DistinctConcat(a, b); } else { DistinctConcat(b, a); }
  }

  lemma {:induction false} OuterApart(d: Dir, hs: seq<Half>)
    requires Distinct(Outer(d, hs))
    ensures Apart(d, hs)
  {
    if hs != [] {
      var (x, e) := (hs[0].x, Elems(hs[0].tree));
      DistinctCat(d, Outer(d, hs[1..]), Cat(d, [x], e));
      DistinctCat(d, [x], e);
      InCat(d, [x], e);
      assert x in [x];
      OuterApart(d, hs[1..]);
    }
    hide Outer, Elems, Cat, Distinct;
  }

  lemma InCat(d: Dir, a: seq<Node>, b: seq<Node>)
    ensures forall x :: x in Cat(d, a, b) <==> x in a || x in b
  {}

  /** The parts of the state share no node. */
  lemma Parts(s: State, d: Dir)
    requires Distinct(All(s))
    ensures Apart(d, Ctx(s, d)) && Apart(Opp(d), Ctx(s, Opp(d))) && Distinct(Elems(s.t))
    ensures Disjoint(Elems(s.t), Outer(d, Ctx(s, d))) && Disjoint(Outer(d, Ctx(s, d)), Elems(s.t))
    ensures Disjoint(Elems(s.t), Outer(Opp(d), Ctx(s, Opp(d))))
            && Disjoint(Outer(d, Ctx(s, d)), Outer(Opp(d), Ctx(s, Opp(d))))
    ensures forall x :: x in All(s) <==>
            x in Elems(s.t) || x in Outer(d, Ctx(s, d)) || x in Outer(Opp(d), Ctx(s, Opp(d)))
  {
    var (p, e, q) := (Outer(R, s.less), Elems(s.t), Outer(L, s.more));
    DistinctConcat(p + e, q);
    DistinctConcat(p, e);
    hide Distinct;
    OuterApart(R, s.less);
    OuterApart(L, s.more);
    assert forall x :: x in p + e <==> x in p || x in e;
    hide Outer, Elems, Apart;
  }

  lemma TreeParts(t: Tree, d: Dir)
    requires t.Bin? && Distinct(Elems(t))
    ensures t.x !in Elems(Child(t, d)) && t.x !in Elems(Child(t, Opp(d)))
    ensures Disjoint(Elems(Child(t, d)), Elems(Child(t, Opp(d))))
            && Disjoint(Elems(Child(t, Opp(d))), Elems(Child(t, d)))
    ensures Distinct(Elems(Child(t, d))) && forall x :: x in Elems(t) <==>
            x == t.x || x in Elems(Child(t, d)) || x in Elems(Child(t, Opp(d)))
  {
    var (a, b) := (Elems(t.left), Elems(t.right));
    DistinctConcat(a + [t.x], b);
    DistinctConcat(a, [t.x]);
    assert t.x in [t.x] && t.x in a + [t.x];
    assert forall x :: x in a + [t.x] <==> x in a || x == t.x;
    hide Elems, Distinct;
  }

  // ----- the state of the loop in memory -----

  /** The node whose link on side `d` is open. */
  function Open(hd: Node, hs: seq<Half>): Node { if hs == [] then hd else Last(hs) }

  ghost predicate Rep(m: Mem, hd: Node, root: Node?, s: State) {
    && hd in m && hd !in All(s) && Distinct(All(s)) && Hangs(m, root, s.t)
    && Chain(m, m[hd].left, L, s.more) && Chain(m, m[hd].right, R, s.less)
  }

  lemma RepChain(m: Mem, hd: Node, root: Node?, s: State, d: Dir)
    requires Rep(m, hd, root, s)
    ensures Chain(m, Link(m[hd], d), d, Ctx(s, d))
  {}

  function RotatedMem(m: Mem, x: Node, y: Node, d: Dir): Mem
    requires x in m && y in m
  {
    Set(Set(m, x, d, Link(m[y], Opp(d))), y, Opp(d), x)
  }

  lemma HangsJoin(m: Mem, d: Dir, a: Tree, x: Node, b: Tree)
    ensures Hangs(m, x, Join(d, a, x, b)) <==> x in m && Hangs(m, Link(m[x], d), a) && Hangs(m, Link(m[x], Opp(d)), b)
  {}

  lemma HangsChild(m: Mem, n: Node?, t: Tree, d: Dir)
    requires Hangs(m, n, t) && t.Bin?
    ensures n == t.x && t.x in m && Hangs(m, Link(m[t.x], d), Child(t, d))
            && Hangs(m, Link(m[t.x], Opp(d)), Child(t, Opp(d)))
  {}

  lemma RotateHangs(m: Mem, n: Node?, t: Tree, d: Dir)
    requires Hangs(m, n, t) && t.Bin? && Child(t, d).Bin? && Distinct(Elems(t))
    ensures var (x, y) := (t.x, Child(t, d).x); x in m && y in m && Hangs(RotatedMem(m, x, y, d), y, Rotated(t, d))
  {
    var (u, x, y) := (Child(t, d), t.x, Child(t, d).x);
    TreeParts(t, d);
    TreeParts(u, d);
    hide Elems, Hangs, Distinct;
    HangsChild(m, n, t, d);
    HangsChild(m, Link(m[x], d), u, d);
    var (a, b, c) := (Child(u, d), Child(u, Opp(d)), Child(t, Opp(d)));
    var cx := WithLink(m[x], d, Link(m[y], Opp(d)));
    var m1 := m[x := cx];
    HangsFrame(m, Link(m[y], d), a, x, cx);
    HangsFrame(m, Link(m[y], Opp(d)), b, x, cx);
    HangsFrame(m, Link(m[x], Opp(d)), c, x, cx);
    var cy := WithLink(m1[y], Opp(d), x);
    var m2 := m1[y := cy];
    HangsFrame(m1, Link(m[y], d), a, y, cy);
    HangsFrame(m1, Link(m[y], Opp(d)), b, y, cy);
    HangsFrame(m1, Link(m[x], Opp(d)), c, y, cy);
    HangsJoin(m2, d, b, x, c);
    HangsJoin(m2, d, a, y, Join(d, b, x, c));
  }

  lemma InTree(t: Tree, d: Dir)
    requires t.Bin?
    ensures t.x in Elems(t) && (Child(t, d).Bin? ==> Child(t, d).x in Elems(t))
  {
    if Child(t, d).Bin? {
      var u := Child(t, d);
      assert u.x in Elems(u.left) + [u.x] + Elems(u.right);
    }
  }

  lemma RotateRep(m: Mem, hd: Node, root: Node?, s: State, d: Dir)
    requires Rep(m, hd, root, s) && s.t.Bin? && Child(s.t, d).Bin?
    ensures var (x, y) := (s.t.x, Child(s.t, d).x);
            x in m && y in m && Rep(RotatedMem(m, x, y, d), hd, y, s.(t := Rotated(s.t, d)))
  {
    var (x, y) := (s.t.x, Child(s.t, d).x);
    Parts(s, L);
    InTree(s.t, d);
    RotatedElems(s.t, d);
    hide Elems, Outer, Distinct, Hangs, Chain;
    RotateHangs(m, root, s.t, d);
    var cx := WithLink(m[x], d, Link(m[y], Opp(d)));
    var m1 := m[x := cx];
    ChainFrame(m, m[hd].left, L, s.more, x, cx);
    ChainFrame(m, m[hd].right, R, s.less, x, cx);
    var cy := WithLink(m1[y], Opp(d), x);
    ChainFrame(m1, m[hd].left, L, s.more, y, cy);
    ChainFrame(m1, m[hd].right, R, s.less, y, cy);
    hide All;
    assert All(s.(t := Rotated(s.t, d))) == All(s) by { SameAll(s, Rotated(s.t, d)); }
  }

  lemma SameAll(s: State, t: Tree)
    requires Elems(t) == Elems(s.t)
    ensures All(s.(t := t)) == All(s)
  {}

  lemma OpenFacts(m: Mem, hd: Node, root: Node?, s: State, d: Dir)
    requires Rep(m, hd, root, s)
    ensures var e := Open(hd, Ctx(s, d));
            && e in m && e !in Elems(s.t) && e !in Outer(Opp(d), Ctx(s, Opp(d)))
            && (Ctx(s, d) != [] ==> e != hd && e in Outer(d, Ctx(s, d)))
  {
    Parts(s, d);
    RepChain(m, hd, root, s, d);
    var hs := Ctx(s, d);
    if hs != [] {
      LastIn(d, hs);
      ChainSet(m, Link(m[hd], d), d, hs, null);
    }
    hide Outer, Elems, Chain, Hangs, Distinct;
  }

  /** The open link of one tree being built set to `n`: nothing else changes. */
  lemma OpenSet(m: Mem, hd: Node, root: Node?, s: State, d: Dir, n: Node?)
    requires Rep(m, hd, root, s)
    ensures var e := Open(hd, Ctx(s, d));
            && e in m
            && var m' := Set(m, e, d, n);
               && Hangs(m', root, s.t) && Chain(m', Link(m'[hd], d), d, Ctx(s, d))
               && Chain(m', Link(m'[hd], Opp(d)), Opp(d), Ctx(s, Opp(d)))
               && (Ctx(s, d) == [] ==> Link(m'[hd], d) == n)
  {
    var (hs, os) := (Ctx(s, d), Ctx(s, Opp(d)));
    var e := Open(hd, hs);
    OpenFacts(m, hd, root, s, d);
    Parts(s, d);
    RepChain(m, hd, root, s, d);
    RepChain(m, hd, root, s, Opp(d));
    hide Outer, Elems, Distinct, Chain, Hangs;
    var c := WithLink(m[e], d, n);
    HangsFrame(m, root, s.t, e, c);
    ChainFrame(m, Link(m[hd], Opp(d)), Opp(d), os, e, c);
    if hs != [] {
      ChainSet(m, Link(m[hd], d), d, hs, n);
    } else {
      NoChain(m[e := c], Link(m[e := c][hd], d), d);
    }
  }

  lemma NoChain(m: Mem, n: Node?, d: Dir)
    ensures Chain(m, n, d, [])
  {}

  lemma LinkRep(m: Mem, hd: Node, root: Node?, s: State, d: Dir)
    requires Rep(m, hd, root, s) && s.t.Bin?
    ensures var (e, x) := (Open(hd, Ctx(s, d)), s.t.x);
            && e in m && x in m
            && var m' := Set(m, e, d, x);
               Rep(m', hd, Link(m'[x], d), Linked(s, d)) && Open(hd, Ctx(Linked(s, d), d)) == x
                   && Open(hd, Ctx(Linked(s, d), Opp(d))) == Open(hd, Ctx(s, Opp(d)))
  {
    var (e, x, hs) := (Open(hd, Ctx(s, d)), s.t.x, Ctx(s, d));
    OpenSet(m, hd, root, s, d, x);
    LinkedAll(s, d);
    var m' := Set(m, e, d, x);
    hide Outer, Elems, Distinct, Hangs, All;
    HangsChild(m', root, s.t, d);
    ChainAppend(m', Link(m'[hd], d), d, hs, Half(x, Child(s.t, Opp(d))));
    hide Chain;
  }

  lemma OpenRep(m: Mem, hd: Node, root: Node?, s: State, d: Dir, n: Node?)
    requires Rep(m, hd, root, s)
    ensures var e := Open(hd, Ctx(s, d)); e in m && Rep(Set(m, e, d, n), hd, root, s)
  {
    OpenSet(m, hd, root, s, d, n);
    hide Chain, Hangs, All, Distinct;
  }

  /** Both open links filled with what is left of the tree: two finished trees hang from the header. */
  function FilledMem(m: Mem, left: Node, right: Node, x: Node): (r: Mem)
    requires left in m && right in m && x in m
    ensures r.Keys == m.Keys
  {
    var m1 := Set(m, left, R, m[x].left);
    Set(m1, right, L, m1[x].right)
  }

  lemma FilledHangs(m: Mem, hd: Node, root: Node?, s: State)
    requires Rep(m, hd, root, s) && s.t.Bin?
    ensures var (left, right, x) := (Open(hd, s.less), Open(hd, s.more), s.t.x);
            && left in m && right in m && x in m
            && var m' := FilledMem(m, left, right, x);
               Hangs(m', m'[hd].right, Build(R, s.less, s.t.left))
                   && Hangs(m', m'[hd].left, Build(L, s.more, s.t.right)) && m'[x] == m[x]
  {
    var (left, right, x, t) := (Open(hd, s.less), Open(hd, s.more), s.t.x, s.t);
    InTree(t, L);
    OpenFacts(m, hd, root, s, R);
    OpenFacts(m, hd, root, s, L);
    assert x in m by { HangsChild(m, root, t, L); }
    OpenRep(m, hd, root, s, R, m[x].left);
    var m1 := Set(m, left, R, m[x].left);
    OpenSet(m1, hd, root, s, L, m1[x].right);
    var m' := FilledMem(m, left, right, x);
    hide Rep, Elems, Outer, Hangs, Chain;
    HangsChild(m', root, t, L);
    ChainBuilt(m', m'[hd].right, R, s.less, t.left);
    ChainBuilt(m', m'[hd].left, L, s.more, t.right);
  }

  /** The two finished trees hung below the root. */
  function HungMem(m: Mem, hd: Node, x: Node): (r: Mem)
    requires x in m && hd in m
    ensures r.Keys == m.Keys
  {
    var m1 := Set(m, x, L, m[hd].right);
    Set(m1, x, R, m1[hd].left)
  }

  lemma AssembleHangs(m: Mem, hd: Node, root: Node?, s: State)
    requires Rep(m, hd, root, s) && s.t.Bin?
    ensures var (left, right, x) := (Open(hd, s.less), Open(hd, s.more), s.t.x);
            left in m && right in m && x in m && Hangs(HungMem(FilledMem(m, left, right, x), hd, x), x, Assembled(s))
  {
    var (left, right, x, t) := (Open(hd, s.less), Open(hd, s.more), s.t.x, s.t);
    FilledHangs(m, hd, root, s);
    var m2 := FilledMem(m, left, right, x);
    var (a, b) := (Build(R, s.less, t.left), Build(L, s.more, t.right));
    NotBelow(s);
    assert x != hd by { InTree(t, L); Parts(s, L); }
    hide Rep, Elems, Hangs, Build, FilledMem;
    var c3 := WithLink(m2[x], L, m2[hd].right);
    var m3 := m2[x := c3];
    HangsFrame(m2, m2[hd].right, a, x, c3);
    HangsFrame(m2, m2[hd].left, b, x, c3);
    var c4 := WithLink(m3[x], R, m3[hd].left);
    HangsFrame(m3, m2[hd].right, a, x, c4);
    HangsFrame(m3, m2[hd].left, b, x, c4);
    HangsJoin(m3[x := c4], L, a, x, b);
  }

  lemma NotBelow(s: State)
    requires s.t.Bin? && Distinct(All(s))
    ensures s.t.x !in Elems(Build(R, s.less, s.t.left)) && s.t.x !in Elems(Build(L, s.more, s.t.right))
  {
    Parts(s, R);
    TreeParts(s.t, L);
    InTree(s.t, L);
    ElemsBuild(R, s.less, s.t.left);
    ElemsBuild(L, s.more, s.t.right);
    hide Elems, Outer, Build, Distinct;
  }

  lemma SortedDistinct(s: seq<Node>)
    requires Sorted(s)
    ensures Distinct(s)
  {}

  // ----- the tree -----

  /** The memory holds an ordered tree and nothing else. */
  ghost predicate Shape(m: Mem, root: Node?, t: Tree) {
    m.Keys == (set x | x in Elems(t)) && Hangs(m, root, t) && Sorted(Elems(t))
  }

  /** The nodes have the links that `m` says. */
  ghost predicate Mirrors(m: Mem)
    reads m.Keys
  {
    forall x :: x in m ==> x.left == m[x].left && x.right == m[x].right
  }

  class Head {
    var root: Node?
    ghost var mem: Mem
    ghost var tree: Tree
    /** The turns of the splaying loop so far. */
    ghost var turns: nat

    /** What the turns so far and the shape of the tree are worth. */
    ghost function Worth(): nat
      reads this
    {
      turns + 2 * Pot(tree)
    }

    /** The ghost memory is the memory. */
    ghost predicate Sync()
      reads `mem, mem.Keys
    {
      Mirrors(mem)
    }

    ghost predicate Valid()
      reads this, mem.Keys
    {
      Sync() && Shape(mem, root, tree)
    }

    constructor ()
      ensures Valid() && Elems(tree) == [] && Size(tree) == 0 && Worth() == 0 && fresh(mem.Keys)
    {
      root, mem, tree, turns := null, map[], Nil, 0;
    }

    method SetLink(x: Node, d: Dir, n: Node?)
      requires Sync() && x in mem
      modifies `mem, x`left, x`right
      ensures Sync() && mem == Set(old(mem), x, d, n)
    {
      if d == L { x.left := n; } else { x.right := n; }
      mem := Set(mem, x, d, n);
    }

    method GetLink(x: Node, d: Dir) returns (n: Node?)
      requires Sync() && x in mem
      ensures n == Link(mem[x], d)
    {
      n := if d == L then x.left else x.right;
    }

    /** The child `y` on side `d` of the root rotated above it. */
    method Rotate(x: Node, y: Node, d: Dir)
      requires Sync() && x in mem && y in mem
      modifies `mem, `root, mem.Keys
      ensures Sync() && mem == RotatedMem(old(mem), x, y, d) && root == y
    {
      var n := GetLink(y, Opp(d));
      SetLink(x, d, n);
      SetLink(y, Opp(d), x);
      root := y;
    }

    /** The root hung into the tree being built on side `d`, and the walk one step down. */
    method Descend(hd: Node, left: Node, right: Node, d: Dir, ghost s: State) returns (left': Node, right': Node)
      requires Sync() && Rep(mem, hd, root, s) && s.t.Bin? && left == Open(hd, s.less) && right == Open(hd, s.more)
      modifies `mem, `root, mem.Keys
      ensures Sync() && mem.Keys == old(mem.Keys)
      ensures var s' := Linked(s, d);
              Rep(mem, hd, root, s') && left' == Open(hd, s'.less) && right' == Open(hd, s'.more)
    {
      hide Rep;
      RootFacts(mem, hd, root, s);
      LinkRep(mem, hd, root, s, d);
      var x := root;
      left', right' := left, right;
      if d == L {
        SetLink(right, L, x);
        right' := x;
      } else {
        SetLink(left, R, x);
        left' := x;
      }
      root := GetLink(x, d);
    }

    /** The child on side `d` rotated above the root if the key lies beyond it. */
    method MaybeRotate(hd: Node, d: Dir, k: int, ghost s: State)
      requires Sync() && Rep(mem, hd, root, s) && s.t.Bin? && Child(s.t, d).Bin?
               && d == (if k < s.t.x.key then L else R)
      modifies `mem, `root, mem.Keys
      ensures Sync() && mem.Keys == old(mem.Keys) && Rep(mem, hd, root, Turned(s, k))
    {
      hide Rep, Rotated;
      RootFacts(mem, hd, root, s);
      ChildFacts(mem, hd, root, s, d);
      var x := root;
      var y := GetLink(x, d);
      if Beyond(k, y, d) {
        RotateRep(mem, hd, root, s, d);
        Rotate(x, y, d);
      }
    }

    /** One turn of the loop. */
    method Turning(hd: Node, left: Node, right: Node, k: int, ghost s: State)
        returns (last: bool, left': Node, right': Node)
      requires Sync() && Rep(mem, hd, root, s) && s.t.Bin? && left == Open(hd, s.less) && right == Open(hd, s.more)
      modifies `mem, `root, mem.Keys
      ensures Sync() && mem.Keys == old(mem.Keys) && last == Turn(s, k).1
      ensures var s' := Turn(s, k).0;
              Rep(mem, hd, root, s') && left' == Open(hd, s'.less) && right' == Open(hd, s'.more)
    {
      hide Rep, Linked, Turned;
      left', right', last := left, right, true;
      RootFacts(mem, hd, root, s);
      if k == root.key { return; }
      var d := if k < root.key then L else R;
      ChildFacts(mem, hd, root, s, d);
      var y := GetLink(root, d);
      if y == null { return; }
      MaybeRotate(hd, d, k, s);
      ghost var s1 := Turned(s, k);
      TurnedFacts(s, k);
      RootFacts(mem, hd, root, s1);
      ChildFacts(mem, hd, root, s1, d);
      y := GetLink(root, d);
      if y == null { return; }
      last := false;
      left', right' := Descend(hd, left, right, d, s1);
    }

    method SplayLoop(hd: Node, k: int, ghost t: Tree) returns (left: Node, right: Node, ghost s: State)
      requires Sync() && t.Bin? && Rep(mem, hd, root, State([], t, []))
      modifies `mem, `root, `turns, mem.Keys
      ensures Sync() && mem.Keys == old(mem.Keys) && s == Run(State([], t, []), k)
      ensures turns == old(turns) + Turns(t, k)
      ensures Rep(mem, hd, root, s) && left == Open(hd, s.less) && right == Open(hd, s.more)
    {
      hide Rep, Run, Turn, Head.Sync, Turns;
      s := State([], t, []);
      left, right := hd, hd;
      var last := false;
      while !last
        invariant Sync() && mem.Keys == old(mem.Keys)
        invariant Rep(mem, hd, root, s) && s.t.Bin? && left == Open(hd, s.less) && right == Open(hd, s.more)
        invariant !last ==> Run(s, k) == Run(State([], t, []), k)
        invariant last ==> s == Run(State([], t, []), k)
        invariant turns + (if last then 0 else Turns(s.t, k)) == old(turns) + Turns(t, k)
        decreases !last, Size(s.t)
      {
        RunTurn(s, k);
        TurnCounts(s, k);
        turns := turns + 1;
        last, left, right := Turning(hd, left, right, k, s);
        s := Turn(s, k).0;
      }
    }

    method Fill(left: Node, right: Node, x: Node)
      requires Sync() && left in mem && right in mem && x in mem
      modifies `mem, mem.Keys
      ensures Sync() && mem == FilledMem(old(mem), left, right, x)
    {
      hide Head.Sync;
      var n := GetLink(x, L);
      SetLink(left, R, n);
      n := GetLink(x, R);
      SetLink(right, L, n);
    }

    method Hang(hd: Node, x: Node)
      requires Sync() && hd in mem && x in mem
      modifies `mem, mem.Keys
      ensures Sync() && mem == HungMem(old(mem), hd, x)
    {
      hide Head.Sync;
      var n := GetLink(hd, R);
      SetLink(x, L, n);
      n := GetLink(hd, L);
      SetLink(x, R, n);
    }

    /** The trees put together below the root. */
    method Assemble(hd: Node, left: Node, right: Node, ghost s: State)
      requires Sync() && Rep(mem, hd, root, s) && s.t.Bin? && left == Open(hd, s.less) && right == Open(hd, s.more)
      modifies `mem, mem.Keys
      ensures Sync() && mem.Keys == old(mem.Keys) && Hangs(mem, root, Assembled(s)) && root == Assembled(s).x
    {
      hide Rep, Hangs, Assembled, All, Head.Sync, FilledMem, HungMem;
      RootFacts(mem, hd, root, s);
      AssembleHangs(mem, hd, root, s);
      Fill(left, right, root);
      Hang(hd, root);
    }

    /** A header node from which the trees being built hang. */
    method AddHeader() returns (hd: Node)
      requires Sync()
      modifies `mem
      ensures fresh(hd) && hd !in old(mem) && Sync() && mem == old(mem)[hd := Cell(null, null)]
    {
      hd := new Node(0);
      mem := mem[hd := Cell(null, null)];
    }

    /** The element with key `k`, or one next to it, brought to the root. */
    method Splay(k: int)
      requires Valid() && root != null
      modifies this, mem.Keys
      ensures Valid() && root != null && old(tree).Bin? && tree == Splayed(old(tree), k) && mem.Keys == old(mem.Keys)
      ensures root == tree.x && Elems(tree) == old(Elems(tree)) && Near(tree, k)
      ensures Size(tree) == old(Size(tree)) && Worth() <= old(Worth()) + 5 * Log(Size(tree)) + 2
    {
      hide Shape, Rep, Run, Hangs, Assembled, Head.Sync, Elems, Near, Turns, Log, Pot, Size;
      ghost var (t, m) := (tree, mem);
      ShapeTree(m, root, t, k);
      SplayPaid(t, k);
      var hd := AddHeader();
      StartRep(m, hd, root, t);
      var left, right;
      ghost var s;
      left, right, s := SplayLoop(hd, k, t);
      Assemble(hd, left, right, s);
      tree := Assembled(s);
      ShapeEnd(m, mem, root, t, tree, hd);
      DropHeader(hd);
    }

    ghost method DropHeader(hd: Node)
      requires Sync()
      modifies `mem
      ensures Sync() && mem == old(mem) - {hd}
    {
      mem := mem - {hd};
    }

    /** The element with key `k`, which is then the root, or null. */
    method Find(k: int) returns (r: Node?)
      requires Valid()
      modifies this, mem.Keys
      ensures Valid() && Elems(tree) == old(Elems(tree)) && mem.Keys == old(mem.Keys)
      ensures r != null ==> r in Elems(tree) && r.key == k
      ensures r == null ==> forall i :: 0 <= i < |Elems(tree)| ==> Elems(tree)[i].key != k
      ensures Size(tree) == old(Size(tree)) && Worth() <= old(Worth()) + 5 * Log(Size(tree)) + 2
    {
      hide Shape, Near, Elems, Head.Sync, Log, Pot, Size;
      ShapeTree(mem, root, tree, k);
      if root == null {
        NoElems(mem, root, tree);
        return null;
      }
      Splay(k);
      RootOnly(tree, k);
      r := if root.key == k then root else null;
    }

    /** `elm` above the root `x`, which keeps what lies on its side away from `d`. */
    method HangAbove(elm: Node, x: Node, d: Dir)
      requires Sync() && x in mem && elm !in mem
      modifies `mem, `root, x, elm
      ensures Sync() && mem == InsertedMem(old(mem), elm, x, d) && root == elm
    {
      var n := GetLink(x, d);
      elm.left, elm.right := null, null;
      mem := mem[elm := Cell(null, null)];
      hide Head.Sync;
      SetLink(elm, d, n);
      SetLink(elm, Opp(d), x);
      SetLink(x, d, null);
      root := elm;
    }

    /** A new element, or the one there with an equal key, which stays as it is. */
    method Insert(elm: Node) returns (r: Node?, ghost n: nat)
      requires Valid() && elm !in mem
      modifies this, mem.Keys, elm
      ensures Valid() && mem.Keys == old(mem.Keys) + (if r == null then {elm} else {})
      ensures r != null ==> r in Elems(tree) && r.key == elm.key && Elems(tree) == old(Elems(tree))
      ensures r == null ==>
              n <= old(|Elems(tree)|) && Elems(tree) == old(Elems(tree)[..n]) + [elm] + old(Elems(tree)[n..])
      ensures Size(tree) == old(Size(tree)) + if r == null then 1 else 0
      ensures Worth() <= old(Worth()) + 7 * Log(old(Size(tree)) + 1) + 2
    {
      hide Shape, Near, Elems, Hangs, InsertedMem, Log, Pot, Size;
      n := 0;
      ShapeTree(mem, root, tree, elm.key);
      if root == null {
        NoElems(mem, root, tree);
        OneElem(elm);
        OnePaid(elm);
        elm.left, elm.right := null, null;
        mem, tree := map[elm := Cell(null, null)], Bin(Nil, elm, Nil);
        root := elm;
        return null, 0;
      }
      Splay(elm.key);
      InsertedPaid(tree, elm, if elm.key < root.key then L else R);
      hide Head.Sync;
      RootOnly(tree, elm.key);
      RootCells(mem, root, tree);
      if elm.key == root.key { return root, 0; }
      var d := if elm.key < root.key then L else R;
      n := Inserted(mem, root, tree, elm, d);
      tree := InsertedTree(tree, elm, d);
      HangAbove(elm, root, d);
      r := null;
    }

    /** The rest `m`, with its tree at `n`, put to the right of the root, which has nothing there. */
    method JoinRight(n: Node?, ghost m: Mem, ghost u: Tree)
      requires Valid() && tree.Bin? && tree.right.Nil? && Mirrors(m) && Shape(m, n, u) && m.Keys !! mem.Keys
               && Sorted(Elems(tree) + Elems(u))
      modifies this, mem.Keys
      ensures Valid() && Elems(tree) == old(Elems(tree)) + Elems(u) && mem.Keys == old(mem.Keys) + m.Keys
      ensures turns == old(turns) && old(tree).Bin? && tree == Bin(old(tree).left, old(tree).x, u)
    {
      hide Shape, Elems, Hangs, Sorted;
      RootCells(mem, root, tree);
      JoinedRight(mem, root, tree, m, n, u);
      root.right := n;
      mem := Set(mem + m, root, R, n);
      tree := Bin(tree.left, tree.x, u);
    }

    /** Taking out the root; everything to its left is smaller and everything to its right larger. */
    method RemoveRoot()
      requires Valid() && tree.Bin? && root == tree.x
      modifies this, mem.Keys
      ensures Valid() && mem.Keys <= old(mem.Keys) && Elems(tree) == old(Elems(tree.left)) + old(Elems(tree.right))
      ensures Size(tree) < old(Size(tree)) && Worth() <= old(Worth()) + 5 * Log(old(Size(tree))) + 2
    {
      hide Shape, Near, Elems, Hangs, Sorted, Below, Log, Pot, Size;
      RootCells(mem, root, tree);
      ghost var (t, m) := (tree, mem);
      HalfShape(m, root, t, L);
      HalfShape(m, root, t, R);
      HalvesApart(m, root, t);
      HalvesPaid(t);
      var x, tmp := root, root.right;
      if x.left == null {
        root := tmp;
        mem, tree := Restrict(m, Elems(t.right)), t.right;
      } else {
        root := x.left;
        mem, tree := Restrict(m, Elems(t.left)), t.left;
        ghost var mr := Restrict(m, Elems(t.right));
        ShapeTree(mem, root, tree, x.key);
        assert Mirrors(mr);
        Splay(x.key);
        NothingAbove(tree, x.key);
        JoinedPaid(t, tree);
        JoinRight(tmp, mr, t.right);
      }
    }

    /** Taking out the element with key `k`, if there is one. */
    method Remove(k: int) returns (found: bool, ghost i: nat)
      requires Valid()
      modifies this, mem.Keys
      ensures Valid() && mem.Keys <= old(mem.Keys)
      ensures found ==> && i < old(|Elems(tree)|) && old(Elems(tree))[i].key == k
                        && Elems(tree) == old(Elems(tree)[..i]) + old(Elems(tree)[i + 1..])
      ensures !found ==> Elems(tree) == old(Elems(tree)) && forall j :: 0 <= j < |Elems(tree)| ==>
              Elems(tree)[j].key != k
      ensures Size(tree) <= old(Size(tree)) && Worth() <= old(Worth()) + 10 * Log(old(Size(tree))) + 4
    {
      hide Shape, Near, Elems, Hangs, Sorted, Head.Sync, Log, Pot, Size;
      i, found := 0, false;
      ShapeTree(mem, root, tree, k);
      if root == null {
        NoElems(mem, root, tree);
        return;
      }
      Splay(k);
      RootOnly(tree, k);
      if root.key != k { return; }
      i, found := |Elems(tree.left)|, true;
      Without(tree);
      RemoveRoot();
    }
  }

  /** What the operations beside the splaying do to the potential. */
  lemma OnePaid(x: Node)
    ensures Size(Bin(Nil, x, Nil)) == 1 && Pot(Bin(Nil, x, Nil)) == 0 && Pot(Nil) == 0 && Size(Nil) == 0
  {}

  lemma InsertedPaid(t: Tree, elm: Node, d: Dir)
    requires t.Bin?
    ensures var t' := InsertedTree(t, elm, d);
            Size(t') == Size(t) + 1 && Pot(t') <= Pot(t) + Log(Size(t) + 1) && Log(Size(t)) <= Log(Size(t) + 1)
  {
    hide Log, Pot, Size, Join, Child;
    var (a, b) := (Child(t, d), Child(t, Opp(d)));
    OnePaid(elm);
    ChildIs(t, d);
    JoinIs(d, a, t.x, b);
    JoinIs(d, Nil, t.x, b);
    JoinIs(d, a, elm, Join(d, Nil, t.x, b));
    LogGrows(Size(b) + 1, Size(t));
    LogGrows(Size(t), Size(t) + 1);
  }

  lemma HalvesPaid(t: Tree)
    requires t.Bin?
    ensures Pot(t) == Log(Size(t)) + Pot(t.left) + Pot(t.right) && Size(t) == Size(t.left) + 1 + Size(t.right)
    ensures Log(Size(t.left)) <= Log(Size(t))
  {
    LogGrows(Size(t.left), Size(t));
    hide Log;
  }

  /** The right half of `t` hung into the splayed left half `u`. */
  lemma JoinedPaid(t: Tree, u: Tree)
    requires t.Bin? && u.Bin? && u.right.Nil? && Size(u) == Size(t.left)
    ensures var r := Bin(u.left, u.x, t.right);
            Size(r) < Size(t) && Pot(r) <= Pot(u) + Pot(t.right) + Log(Size(t))
  {
    hide Log, Pot, Size;
    var r := Bin(u.left, u.x, t.right);
    OnePaid(u.x);
    HalvesPaid(t);
    HalvesPaid(u);
    HalvesPaid(r);
    LogGrows(Size(r), Size(t));
  }

  lemma TurnCounts(s: State, k: int)
    requires s.t.Bin?
    ensures var (s', last) := Turn(s, k);
            s'.t.Bin? && Turns(s.t, k) == 1 + if last then 0 else Turns(s'.t, k)
  {
    hide Split, Turn;
    TurnSplit(s, k);
  }

  // ----- whole runs -----

  datatype Op = DoFind(k: int) | DoInsert(k: int) | DoRemove(k: int)

  function Inserts(ops: seq<Op>): nat {
    if ops == [] then 0 else Inserts(ops[..|ops| - 1]) + if ops[|ops| - 1].DoInsert? then 1 else 0
  }

  lemma {:induction false} InsertsGrow(ops: seq<Op>, i: nat)
    requires i <= |ops|
    ensures Inserts(ops[..i]) <= Inserts(ops)
    decreases |ops|
  {
    if i < |ops| {
      InsertsGrow(ops[..|ops| - 1], i);
      assert ops[..|ops| - 1][..i] == ops[..i];
    } else {
      assert ops[..i] == ops;
    }
  }

  /** The Balance Theorem: on a tree that starts empty, any operations of which `n` are inserts take together
      at most their number times ten logarithms of n + 1, and four, turns. */
  method Balance(ops: seq<Op>) returns (h: Head)
    ensures h.Valid() && h.turns <= |ops| * (10 * Log(Inserts(ops) + 1) + 4)
  {
    hide Log, Pot, Size, Elems, Head.Valid;
    h := new Head();
    ghost var each := 10 * Log(Inserts(ops) + 1) + 4;
    for i := 0 to |ops|
      invariant h.Valid() && fresh(h) && fresh(h.mem.Keys) && Size(h.tree) <= Inserts(ops[..i])
      invariant h.Worth() <= i * each
    {
      assert ops[..i + 1][..i] == ops[..i];
      InsertsGrow(ops, i);
      LogGrows(Size(h.tree), Inserts(ops) + 1);
      LogGrows(Size(h.tree) + 1, Inserts(ops) + 1);
      ghost var was := h.Worth();
      match ops[i] {
        case DoFind(k) => var r := h.Find(k);
        case DoInsert(k) =>
          var x := new Node(k);
          var r, n := h.Insert(x);
        case DoRemove(k) => var found, n := h.Remove(k);
      }
      assert h.Worth() <= was + each;
      assert (i + 1) * each == i * each + each;
    }
    assert ops[..|ops|] == ops;
  }

  lemma Without(t: Tree)
    requires t.Bin?
    ensures var n := |Elems(t.left)|;
            n < |Elems(t)| && Elems(t)[n] == t.x && Elems(t)[..n] + Elems(t)[n + 1..] == Elems(t.left) + Elems(t.right)
  {
    var (a, b) := (Elems(t.left), Elems(t.right));
    assert Elems(t) == a + [t.x] + b;
    assert Elems(t)[..|a|] == a && Elems(t)[|a| + 1..] == b;
    hide Elems;
  }

  function Restrict(m: Mem, s: seq<Node>): Mem { map y | y in m && y in s :: m[y] }

  lemma {:induction false} HangsRestrict(m: Mem, n: Node?, t: Tree, s: seq<Node>)
    requires Hangs(m, n, t) && forall y :: y in Elems(t) ==> y in s
    ensures Hangs(Restrict(m, s), n, t)
  {
    if t.Bin? {
      assert Elems(t) == Elems(t.left) + [t.x] + Elems(t.right);
      assert t.x in Elems(t);
      HangsRestrict(m, m[t.x].left, t.left, s);
      HangsRestrict(m, m[t.x].right, t.right, s);
    }
  }

  /** A subtree of the root as a tree of its own. */
  lemma HalfShape(m: Mem, root: Node?, t: Tree, d: Dir)
    requires Shape(m, root, t) && t.Bin?
    ensures var a := Elems(Child(t, d));
            t.x in m && Shape(Restrict(m, a), Link(m[t.x], d), Child(t, d)) && Restrict(m, a).Keys == (set y | y in a)
  {
    ChildSorted(t, d);
    HangsChild(m, root, t, d);
    hide Elems, Sorted, Hangs;
    var a := Elems(Child(t, d));
    HangsRestrict(m, Link(m[t.x], d), Child(t, d), a);
    RestrictKeys(m, a);
    hide Restrict;
  }

  lemma RestrictKeys(m: Mem, s: seq<Node>)
    requires forall y :: y in s ==> y in m
    ensures Restrict(m, s).Keys == (set y | y in s)
  {}

  lemma ChildSorted(t: Tree, d: Dir)
    requires t.Bin? && Sorted(Elems(t))
    ensures Sorted(Elems(Child(t, d))) && forall y :: y in Elems(Child(t, d)) ==> y in Elems(t)
  {
    var (a, b, x) := (Elems(t.left), Elems(t.right), t.x);
    assert Elems(t) == a + [x] + b == [] + (a + [x] + b) + [];
    SortedSplit([], a, x, b, []);
    hide Elems, Sorted;
  }

  lemma HalvesApart(m: Mem, root: Node?, t: Tree)
    requires Shape(m, root, t) && t.Bin?
    ensures var (a, b, x) := (Elems(t.left), Elems(t.right), t.x);
            && x in m && (set y | y in a) !! (set y | y in b) && (set y | y in a) <= m.Keys
            && (set y | y in b) <= m.Keys
            && Sorted(a + b) && Below(a, x.key) && (m[x].left == null <==> t.left.Nil?) && (t.left.Nil? ==> a == [])
  {
    var (a, b, x) := (Elems(t.left), Elems(t.right), t.x);
    assert Elems(t) == a + [x] + b == [] + (a + [x] + b) + [];
    assert t.left.Nil? ==> a == [];
    SortedDistinct(Elems(t));
    TreeParts(t, L);
    SortedSplit([], a, x, b, []);
    SortedWithout(a, x, b);
    HangsChild(m, root, t, L);
    HangsNull(m, m[x].left, t.left);
    hide Elems, Hangs, Sorted, Distinct, Below;
  }

  lemma HangsNull(m: Mem, n: Node?, t: Tree)
    requires Hangs(m, n, t)
    ensures n == null <==> t.Nil?
  {}

  lemma SortedWithout(a: seq<Node>, x: Node, b: seq<Node>)
    requires Sorted(a + [x] + b)
    ensures Sorted(a + b)
  {
    var (s, r) := (a + [x] + b, a + b);
    forall i, j | 0 <= i < j < |r| ensures r[i].key < r[j].key {
      assert r[i] == s[if i < |a| then i else i + 1] && r[j] == s[if j < |a| then j else j + 1];
    }
  }

  /** With all keys below `k` the root has nothing to its right. */
  lemma NothingAbove(t: Tree, k: int)
    requires Near(t, k) && Below(Elems(t), k)
    ensures t.Bin? && t.right.Nil?
  {
    var b := Elems(t.right);
    assert Elems(t) == Elems(t.left) + [t.x] + b;
    BelowConcat(Elems(t.left) + [t.x], b, k);
    if t.right.Bin? { InTree(t.right, L); }
    hide Elems;
  }

  lemma JoinedRight(m: Mem, root: Node?, t: Tree, mr: Mem, n: Node?, u: Tree)
    requires Shape(m, root, t) && t.Bin? && t.right.Nil? && Shape(mr, n, u) && mr.Keys !! m.Keys
             && Sorted(Elems(t) + Elems(u))
    ensures root == t.x && t.x in m
    ensures var (m', t') := (Set(m + mr, t.x, R, n), Bin(t.left, t.x, u));
            Shape(m', root, t') && Elems(t') == Elems(t) + Elems(u) && m'.Keys == m.Keys + mr.Keys
  {
    hide Elems, Sorted, Distinct, Hangs;
    var (x, a, b) := (t.x, Elems(t.left), Elems(u));
    JoinedElems(t, u);
    SortedDistinct(Elems(t));
    TreeParts(t, L);
    RootCells(m, root, t);
    assert x !in b by { assert x in m.Keys && x !in mr.Keys; }
    HangsMerge(m, mr, m[x].left, t.left);
    HangsMerge'(m, mr, n, u);
    var m2 := m + mr;
    var c := WithLink(m2[x], R, n);
    HangsFrame(m2, m[x].left, t.left, x, c);
    HangsFrame(m2, n, u, x, c);
    HangsJoin(m2[x := c], L, t.left, x, u);
    assert m2[x] == m[x];
    UnionKeys(Elems(t), b);
  }

  lemma UnionKeys(a: seq<Node>, b: seq<Node>)
    ensures (set y | y in a + b) == (set y | y in a) + (set y | y in b)
  {}

  lemma JoinedElems(t: Tree, u: Tree)
    requires t.Bin? && t.right.Nil?
    ensures Elems(Bin(t.left, t.x, u)) == Elems(t) + Elems(u)
  {
    var (a, x, b) := (Elems(t.left), t.x, Elems(u));
    assert Elems(t) == a + [x] + [] == a + [x];
  }

  lemma {:induction false} HangsMerge(m: Mem, mr: Mem, n: Node?, t: Tree)
    requires Hangs(m, n, t) && m.Keys !! mr.Keys
    ensures Hangs(m + mr, n, t)
  {
    if t.Bin? {
      assert t.x !in mr.Keys;
      HangsMerge(m, mr, m[t.x].left, t.left);
      HangsMerge(m, mr, m[t.x].right, t.right);
    }
  }

  lemma {:induction false} HangsMerge'(m: Mem, mr: Mem, n: Node?, t: Tree)
    requires Hangs(mr, n, t)
    ensures Hangs(m + mr, n, t)
  {
    if t.Bin? {
      HangsMerge'(m, mr, mr[t.x].left, t.left);
      HangsMerge'(m, mr, mr[t.x].right, t.right);
    }
  }

  lemma NoElems(m: Mem, n: Node?, t: Tree)
    requires Shape(m, n, t) && t.Nil?
    ensures Elems(t) == [] && m.Keys == {}
  {}

  lemma OneElem(x: Node)
    ensures Shape(map[x := Cell(null, null)], x, Bin(Nil, x, Nil)) && Elems(Bin(Nil, x, Nil)) == [x]
  {}

  /** Only the root can have the key. */
  lemma RootOnly(t: Tree, k: int)
    requires t.Bin? && Near(t, k)
    ensures t.x in Elems(t) && (t.x.key != k ==> forall i :: 0 <= i < |Elems(t)| ==> Elems(t)[i].key != k)
  {
    assert Elems(t) == Elems(t.left) + [t.x] + Elems(t.right);
    hide Elems;
  }

  lemma RootCells(m: Mem, root: Node?, t: Tree)
    requires Shape(m, root, t) && t.Bin?
    ensures root == t.x && t.x in m && Hangs(m, m[t.x].left, t.left) && Hangs(m, m[t.x].right, t.right)
  {
    hide Elems;
  }

  function InsertedMem(m: Mem, elm: Node, x: Node, d: Dir): Mem
    requires x in m
  {
    Set(Set(Set(m[elm := Cell(null, null)], elm, d, Link(m[x], d)), elm, Opp(d), x), x, d, null)
  }

  function InsertedTree(t: Tree, elm: Node, d: Dir): Tree
    requires t.Bin?
  {
    Join(d, Child(t, d), elm, Join(d, Nil, t.x, Child(t, Opp(d))))
  }

  lemma InsertedHangs(m: Mem, root: Node?, t: Tree, elm: Node, d: Dir)
    requires Hangs(m, root, t) && t.Bin? && Distinct(Elems(t)) && elm !in m && elm !in Elems(t)
    ensures t.x in m && Hangs(InsertedMem(m, elm, t.x, d), elm, InsertedTree(t, elm, d))
            && InsertedMem(m, elm, t.x, d).Keys == m.Keys + {elm}
  {
    hide Elems, Hangs, Distinct, Child;
    var (x, u, v) := (t.x, Child(t, d), Child(t, Opp(d)));
    TreeParts(t, d);
    HangsChild(m, root, t, d);
    var c := WithLink(WithLink(Cell(null, null), d, Link(m[x], d)), Opp(d), x);
    var m1 := m[elm := c];
    var e := WithLink(m[x], d, null);
    assert InsertedMem(m, elm, x, d) == m1[x := e];
    HangsFrame(m, Link(m[x], d), u, elm, c);
    HangsFrame(m, Link(m[x], Opp(d)), v, elm, c);
    HangsFrame(m1, Link(m[x], d), u, x, e);
    HangsFrame(m1, Link(m[x], Opp(d)), v, x, e);
    NilHangs(m1[x := e]);
    HangsJoin(m1[x := e], d, Nil, x, v);
    HangsJoin(m1[x := e], d, u, elm, Join(d, Nil, x, v));
  }

  lemma NilHangs(m: Mem)
    ensures Hangs(m, null, Nil)
  {}

  lemma InsertedElems(t: Tree, elm: Node, d: Dir) returns (n: nat)
    requires t.Bin? && Sorted(Elems(t)) && Near(t, elm.key) && Beyond(elm.key, t.x, d)
    ensures n <= |Elems(t)| && Elems(InsertedTree(t, elm, d)) == Elems(t)[..n] + [elm] + Elems(t)[n..]
    ensures Sorted(Elems(InsertedTree(t, elm, d)))
  {
    hide Sorted, Below, Above;
    var (x, a, b) := (t.x, Elems(t.left), Elems(t.right));
    n := if d == L then |a| else |a| + 1;
    var e := Elems(t);
    assert e == a + [x] + b;
    OneSide(x.key, elm.key, x);
    if d == L {
      assert Elems(Bin(Nil, x, t.right)) == [] + [x] + b == [x] + b;
      assert e == a + ([x] + b) && e[..n] == a && e[n..] == [x] + b;
      BelowConcat([x], b, elm.key);
      SortedBetween(a, elm, [x] + b);
    } else {
      assert Elems(Bin(t.left, x, Nil)) == a + [x] + [] == a + [x];
      assert e == (a + [x]) + b && e[..n] == a + [x] && e[n..] == b;
      BelowConcat(a, [x], elm.key);
      SortedBetween(a + [x], elm, b);
    }
  }

  lemma OneSide(l: int, k: int, x: Node)
    requires x.key == l
    ensures (l < k ==> Below([x], k)) && (l > k ==> Above([x], k))
  {}

  /** The new element above the root, with all on side `d` taken over from it. */
  lemma Inserted(m: Mem, root: Node?, t: Tree, elm: Node, d: Dir) returns (n: nat)
    requires Shape(m, root, t) && t.Bin? && Near(t, elm.key) && elm !in m && Beyond(elm.key, t.x, d)
    ensures t.x in m
    ensures var (m', t') := (InsertedMem(m, elm, t.x, d), InsertedTree(t, elm, d));
            && m'.Keys == m.Keys + {elm} && Shape(m', elm, t')
            && n <= |Elems(t)| && Elems(t') == Elems(t)[..n] + [elm] + Elems(t)[n..]
  {
    SortedDistinct(Elems(t));
    hide Elems, Sorted, Distinct;
    InsertedHangs(m, root, t, elm, d);
    n := InsertedElems(t, elm, d);
    var (e, e') := (Elems(t), Elems(InsertedTree(t, elm, d)));
    InAdded(e, n, elm);
  }

  lemma InAdded(e: seq<Node>, n: nat, x: Node)
    requires n <= |e|
    ensures (set y | y in e[..n] + [x] + e[n..]) == (set y | y in e) + {x}
  {
    var e' := e[..n] + [x] + e[n..];
    assert e == e[..n] + e[n..];
    assert e'[n] == x;
    forall y | y in e ensures y in e' { assert y in e[..n] || y in e[n..]; }
  }

  lemma SortedBetween(a: seq<Node>, x: Node, b: seq<Node>)
    requires Sorted(a + b) && Below(a, x.key) && Above(b, x.key)
    ensures Sorted(a + [x] + b)
  {
    var (s, r) := (a + b, a + [x] + b);
    forall i, j | 0 <= i < j < |r| ensures r[i].key < r[j].key {
      assert i != |a| ==> r[i] == s[if i < |a| then i else i - 1];
      assert j != |a| ==> r[j] == s[if j < |a| then j else j - 1];
    }
  }

  lemma ShapeTree(m: Mem, n: Node?, t: Tree, k: int)
    requires Shape(m, n, t)
    ensures Hangs(m, n, t) && Distinct(Elems(t)) && (n == null <==> t.Nil?) && forall x :: x !in m ==> x !in Elems(t)
    ensures t.Bin? ==> Elems(Splayed(t, k)) == Elems(t) && Near(Splayed(t, k), k)
  {
    SortedDistinct(Elems(t));
    if t.Bin? { SplayedIs(t, k); }
    hide Elems, Near, Splayed;
  }

  lemma ShapeEnd(m: Mem, m': Mem, root: Node?, t: Tree, t': Tree, hd: Node)
    requires (exists n :: Shape(m, n, t)) && m'.Keys == m.Keys + {hd} && hd !in m && Hangs(m', root, t')
             && Elems(t') == Elems(t)
    ensures Shape(m' - {hd}, root, t') && (m' - {hd}).Keys == m.Keys
  {
    hide Elems;
    HangsDrop(m', root, t', hd);
    assert (m' - {hd}).Keys == m.Keys;
  }

  lemma {:induction false} HangsDrop(m: Mem, n: Node?, t: Tree, x: Node)
    requires Hangs(m, n, t) && x !in Elems(t)
    ensures Hangs(m - {x}, n, t)
  {
    if t.Bin? {
      HangsDrop(m, m[t.x].left, t.left, x);
      HangsDrop(m, m[t.x].right, t.right, x);
    }
  }

  lemma TurnedFacts(s: State, k: int)
    requires s.t.Bin?
    ensures Turned(s, k).t.Bin? && Turned(s, k).less == s.less && Turned(s, k).more == s.more
  {}

  lemma RunTurn(s: State, k: int)
    requires s.t.Bin?
    ensures Turn(s, k).0.t.Bin? && Run(s, k) == if Turn(s, k).1 then Turn(s, k).0 else Run(Turn(s, k).0, k)
    ensures !Turn(s, k).1 ==> Size(Turn(s, k).0.t) < Size(s.t)
  {
    TurnShrinks(s, k);
  }

  lemma StartRep(m: Mem, hd: Node, root: Node?, t: Tree)
    requires hd !in m && Hangs(m, root, t) && Distinct(Elems(t)) && hd !in Elems(t)
    ensures Rep(m[hd := Cell(null, null)], hd, root, State([], t, []))
  {
    HangsFrame(m, root, t, hd, Cell(null, null));
    assert All(State([], t, [])) == [] + Elems(t) + [] == Elems(t);
    hide Elems;
  }

  lemma RootFacts(m: Mem, hd: Node, root: Node?, s: State)
    requires Rep(m, hd, root, s) && s.t.Bin?
    ensures root == s.t.x && s.t.x in m && hd in m && Assembled(s).x == s.t.x
  {}

  lemma ChildFacts(m: Mem, hd: Node, root: Node?, s: State, d: Dir)
    requires Rep(m, hd, root, s) && s.t.Bin?
    ensures s.t.x in m && (Link(m[s.t.x], d) == null <==> Child(s.t, d).Nil?)
    ensures Child(s.t, d).Bin? ==> Link(m[s.t.x], d) == Child(s.t, d).x && Child(s.t, d).x in m
  {
    HangsChild(m, root, s.t, d);
  }
}
