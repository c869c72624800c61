/** Top-down splaying on trees as values: what the loop does to the tree it walks down and to the two
    trees it builds on the way. */
module SplayTree {

  class Node {
    const key: int
    var left: Node?
    var right: Node?

    constructor (key: int)
      ensures this.key == key && left == null && right == null
    {
      this.key := key;
      left, right := null, null;
    }
  }

  datatype Dir = L | R

  function Opp(d: Dir): Dir { if d == L then R else L }

  datatype Tree = Nil | Bin(left: Tree, x: Node, right: Tree)

  function Child(t: Tree, d: Dir): Tree
    requires t.Bin?
  {
    if d == L then t.left else t.right
  }

  /** The tree with `a` on side `d` of `x` and `b` on the other. */
  function Join(d: Dir, a: Tree, x: Node, b: Tree): Tree {
    if d == L then Bin(a, x, b) else Bin(b, x, a)
  }

  function Cat(d: Dir, a: seq<Node>, b: seq<Node>): seq<Node> { if d == L then a + b else b + a }

  /** The elements in order. */
  function Elems(t: Tree): seq<Node> {
    if t.Nil? then [] else Elems(t.left) + [t.x] + Elems(t.right)
  }

  function Size(t: Tree): nat { if t.Nil? then 0 else Size(t.left) + 1 + Size(t.right) }

  lemma ElemsJoin(d: Dir, a: Tree, x: Node, b: Tree)
    ensures Elems(Join(d, a, x, b)) == Cat(d, Cat(d, Elems(a), [x]), Elems(b))
  {}

  ghost predicate Sorted(s: seq<Node>) { forall i, j :: 0 <= i < j < |s| ==> s[i].key < s[j].key }

  // ----- the trees being built -----

  /** A node of a tree being built, with its finished subtree. */
  datatype Half = Half(x: Node, tree: Tree)

  /** Nodes linked one below the other on side `d`, the last one open there, with `t` put into the opening. */
  function Build(d: Dir, hs: seq<Half>, t: Tree): Tree {
    if hs == [] then t else Join(d, Build(d, hs[1..], t), hs[0].x, hs[0].tree)
  }

  function Outer(d: Dir, hs: seq<Half>): seq<Node> {
    if hs == [] then [] else Cat(d, Outer(d, hs[1..]), Cat(d, [hs[0].x], Elems(hs[0].tree)))
  }

  lemma {:induction false} ElemsBuild(d: Dir, hs: seq<Half>, t: Tree)
    ensures Elems(Build(d, hs, t)) == Cat(d, Elems(t), Outer(d, hs))
  {
    if hs != [] {
      ElemsBuild(d, hs[1..], t);
      ElemsJoin(d, Build(d, hs[1..], t), hs[0].x, hs[0].tree);
      Regroup(d, Elems(t), Outer(d, hs[1..]), [hs[0].x], Elems(hs[0].tree));
    }
    hide Elems;
  }

  lemma Regroup(d: Dir, a: seq<Node>, b: seq<Node>, c: seq<Node>, e: seq<Node>)
    ensures Cat(d, Cat(d, Cat(d, a, b), c), e) == Cat(d, a, Cat(d, b, Cat(d, c, e)))
  {
    if d == L {
      assert ((a + b) + c) + e == a + (b + (c + e));
    } else {
      assert e + (c + (b + a)) == ((e + c) + b) + a;
    }
  }

  lemma CatAssoc(d: Dir, a: seq<Node>, b: seq<Node>, c: seq<Node>)
    ensures Cat(d, Cat(d, a, b), c) == Cat(d, a, Cat(d, b, c)) && Cat(d, [], c) == c == Cat(d, c, [])
  {}

  lemma {:induction false} OuterAppend(d: Dir, hs: seq<Half>, h: Half)
    ensures Outer(d, hs + [h]) == Cat(d, Cat(d, [h.x], Elems(h.tree)), Outer(d, hs))
  {
    hide Elems, Cat;
    var a := Cat(d, [h.x], Elems(h.tree));
    CatAssoc(d, [], [], a);
    if hs == [] {
      assert [] + [h] == [h] && [h][1..] == [];
    } else {
      assert (hs + [h])[1..] == hs[1..] + [h];
      OuterAppend(d, hs[1..], h);
      CatAssoc(d, a, Outer(d, hs[1..]), Cat(d, [hs[0].x], Elems(hs[0].tree)));
    }
  }

  // ----- the loop -----

  /** The tree left to walk and the two being built: `less` is open on the right, `more` on the left. */
  datatype State = State(less: seq<Half>, t: Tree, more: seq<Half>)

  function Ctx(s: State, d: Dir): seq<Half> { if d == L then s.more else s.less }

  function Pushed(s: State, d: Dir, h: Half, t: Tree): State {
    if d == L then State(s.less, t, s.more + [h]) else State(s.less + [h], t, s.more)
  }

  function All(s: State): seq<Node> { Outer(R, s.less) + Elems(s.t) + Outer(L, s.more) }

  /** The key lies on side `d` of `x`. */
  predicate Beyond(k: int, x: Node, d: Dir) { if d == L then k < x.key else k > x.key }

  /** `y`, the child on side `d`, above its parent. */
  function Rotated(t: Tree, d: Dir): Tree
    requires t.Bin? && Child(t, d).Bin?
  {
    var y := Child(t, d);
    Join(d, Child(y, d), y.x, Join(d, Child(y, Opp(d)), t.x, Child(t, Opp(d))))
  }

  /** The root put into the tree being built, and the walk one step down. */
  function Linked(s: State, d: Dir): State
    requires s.t.Bin?
  {
    Pushed(s, d, Half(s.t.x, Child(s.t, Opp(d))), Child(s.t, d))
  }

  function Turned(s: State, k: int): State
    requires s.t.Bin?
  {
    var d := if k < s.t.x.key then L else R;
    if Child(s.t, d).Bin? && Beyond(k, Child(s.t, d).x, d) then s.(t := Rotated(s.t, d)) else s
  }

  /** One turn of the loop; `true` when it is the last. */
  function Turn(s: State, k: int): (State, bool)
    requires s.t.Bin?
  {
    if k == s.t.x.key then (s, true)
    else
      var d := if k < s.t.x.key then L else R;
      if Child(s.t, d).Nil? then (s, true)
      else
        var s1 := Turned(s, k);
        if Child(s1.t, d).Nil? then (s1, true) else (Linked(s1, d), false)
  }

  lemma TurnShrinks(s: State, k: int)
    requires s.t.Bin?
    ensures Turn(s, k).0.t.Bin? && (!Turn(s, k).1 ==> Size(Turn(s, k).0.t) < Size(s.t))
  {}

  function Run(s: State, k: int): (r: State)
    requires s.t.Bin?
    ensures r.t.Bin?
    decreases Size(s.t)
  {
    TurnShrinks(s, k);
    var (s', last) := Turn(s, k);
    if last then s' else Run(s', k)
  }

  function Assembled(s: State): Tree
    requires s.t.Bin?
  {
    Bin(Build(R, s.less, s.t.left), s.t.x, Build(L, s.more, s.t.right))
  }

  function Splayed(t: Tree, k: int): (r: Tree)
    requires t.Bin?
    ensures r.Bin?
  {
    Assembled(Run(State([], t, []), k))
  }

  // ----- splaying keeps the elements and their order -----

  lemma RotatedElems(t: Tree, d: Dir)
    requires t.Bin? && Child(t, d).Bin?
    ensures Elems(Rotated(t, d)) == Elems(t)
  {
    var (y, x) := (Child(t, d), t.x);
    var (a, b, c) := (Elems(Child(y, d)), Elems(Child(y, Opp(d))), Elems(Child(t, Opp(d))));
    if d == L {
      assert a + [y.x] + (b + [x] + c) == (a + [y.x] + b) + [x] + c;
    } else {
      assert (c + [x] + b) + [y.x] + a == c + [x] + (b + [y.x] + a);
    }
  }

  lemma Around(p: seq<Node>, a: seq<Node>, x: Node, b: seq<Node>, q: seq<Node>)
    ensures p + a + (([x] + b) + q) == p + (a + [x] + b) + q
    ensures (p + (a + [x])) + b + q == p + (a + [x] + b) + q
    ensures (p + a) + [x] + (b + q) == p + (a + [x] + b) + q
  {}

  lemma LinkedAll(s: State, d: Dir)
    requires s.t.Bin?
    ensures All(Linked(s, d)) == All(s)
  {
    OuterAppend(d, Ctx(s, d), Half(s.t.x, Child(s.t, Opp(d))));
    Around(Outer(R, s.less), Elems(s.t.left), s.t.x, Elems(s.t.right), Outer(L, s.more));
    assert Elems(s.t) == Elems(s.t.left) + [s.t.x] + Elems(s.t.right);
    hide Outer, Elems;
  }

  lemma TurnAll(s: State, k: int)
    requires s.t.Bin?
    ensures All(Turn(s, k).0) == All(s)
  {
    hide Elems, Outer;
    var d := if k < s.t.x.key then L else R;
    if Child(s.t, d).Bin? {
      RotatedElems(s.t, d);
      LinkedAll(Turned(s, k), d);
    }
    hide Rotated, Linked;
  }

  ghost predicate Below(s: seq<Node>, k: int) { forall i :: 0 <= i < |s| ==> s[i].key < k }

  ghost predicate Above(s: seq<Node>, k: int) { forall i :: 0 <= i < |s| ==> s[i].key > k }

  lemma BelowConcat(a: seq<Node>, b: seq<Node>, k: int)
    ensures Below(a + b, k) <==> Below(a, k) && Below(b, k)
    ensures Above(a + b, k) <==> Above(a, k) && Above(b, k)
  {
    var s := a + b;
    assert forall i :: 0 <= i < |a| ==> s[i] == a[i];
    assert forall i :: 0 <= i < |b| ==> s[|a| + i] == b[i];
  }

  /** An ordered sequence splits at each of its elements. */
  lemma SortedSplit(p: seq<Node>, a: seq<Node>, x: Node, b: seq<Node>, q: seq<Node>)
    requires Sorted(p + (a + [x] + b) + q)
    ensures Below(a, x.key) && Above(b, x.key) && Sorted(a + [x] + b) && Sorted(a) && Sorted(b)
  {
    var e := a + [x] + b;
    SortedMiddle(p, e, q);
    assert e[|a|] == x;
    assert forall i :: 0 <= i < |a| ==> e[i] == a[i];
    assert forall i :: 0 <= i < |b| ==> e[|a| + 1 + i] == b[i];
  }

  lemma SortedMiddle(a: seq<Node>, b: seq<Node>, c: seq<Node>)
    requires Sorted(a + b + c)
    ensures Sorted(b)
  {
    var s := a + b + c;
    forall i, j | 0 <= i < j < |b| ensures b[i].key < b[j].key {
      assert s[|a| + i] == b[i] && s[|a| + j] == b[j];
    }
  }

  /** What has been built on either side is on that side of the key. */
  ghost predicate Bounds(s: State, k: int) { Below(Outer(R, s.less), k) && Above(Outer(L, s.more), k) }

  lemma Weaken(s: seq<Node>, k: int, l: int)
    ensures Below(s, k) && k <= l ==> Below(s, l)
    ensures Above(s, k) && l <= k ==> Above(s, l)
  {}

  lemma LinkedBounds(s: State, d: Dir, k: int)
    requires s.t.Bin? && Sorted(All(s)) && Bounds(s, k) && Beyond(k, s.t.x, d)
    ensures Bounds(Linked(s, d), k)
  {
    var (a, x, b) := (Elems(s.t.left), s.t.x, Elems(s.t.right));
    OuterAppend(d, Ctx(s, d), Half(x, Child(s.t, Opp(d))));
    assert Elems(s.t) == a + [x] + b;
    SortedSplit(Outer(R, s.less), a, x, b, Outer(L, s.more));
    assert Below([x], x.key + 1) && Above([x], x.key - 1);
    Weaken(a, x.key, k);
    Weaken(b, x.key, k);
    Weaken([x], x.key + 1, k);
    Weaken([x], x.key - 1, k);
    hide Outer, Elems, Sorted, Below, Above;
    BelowConcat(a, [x], k);
    BelowConcat([x], b, k);
    BelowConcat(Outer(R, s.less), a + [x], k);
    BelowConcat([x] + b, Outer(L, s.more), k);
  }

  lemma TurnBounds(s: State, k: int)
    requires s.t.Bin? && Sorted(All(s)) && Bounds(s, k)
    ensures Bounds(Turn(s, k).0, k)
  {
    hide Elems, Outer, Bounds, Sorted, Linked;
    var d := if k < s.t.x.key then L else R;
    if k != s.t.x.key && Child(s.t, d).Bin? {
      var s1 := Turned(s, k);
      RotatedElems(s.t, d);
      SameBounds(s, s1, k);
      assert Beyond(k, s1.t.x, d);
      LinkedBounds(s1, d, k);
    }
  }

  lemma SameBounds(s: State, s': State, k: int)
    requires Bounds(s, k) && s'.less == s.less && s'.more == s.more
    ensures Bounds(s', k)
  {}

  /** The loop stops at the key or where the key would hang. */
  predicate Ended(t: Tree, k: int) {
    t.Bin? && (k == t.x.key || (k < t.x.key && t.left.Nil?) || (k > t.x.key && t.right.Nil?))
  }

  lemma {:induction false} RunAll(s: State, k: int)
    requires s.t.Bin? && Sorted(All(s)) && Bounds(s, k)
    ensures var r := Run(s, k); All(r) == All(s) && Bounds(r, k) && Ended(r.t, k)
    decreases Size(s.t)
  {
    hide Bounds, Sorted, All;
    TurnShrinks(s, k);
    TurnAll(s, k);
    TurnBounds(s, k);
    if !Turn(s, k).1 {
      hide Turn;
      RunAll(Turn(s, k).0, k);
    }
  }

  lemma AssembledElems(s: State)
    requires s.t.Bin?
    ensures Elems(Assembled(s)) == All(s)
    ensures Elems(Assembled(s).left) == Outer(R, s.less) + Elems(s.t.left)
            && Elems(Assembled(s).right) == Elems(s.t.right) + Outer(L, s.more)
  {
    ElemsBuild(R, s.less, s.t.left);
    ElemsBuild(L, s.more, s.t.right);
    Around(Outer(R, s.less), Elems(s.t.left), s.t.x, Elems(s.t.right), Outer(L, s.more));
    var r := Assembled(s);
    assert Elems(r) == Elems(r.left) + [r.x] + Elems(r.right)
           && Elems(s.t) == Elems(s.t.left) + [s.t.x] + Elems(s.t.right);
    hide Build, Outer, Elems;
  }

  /** Everything to the left of the root lies below the key and everything to the right above it. */
  ghost predicate Near(t: Tree, k: int) { t.Bin? && Below(Elems(t.left), k) && Above(Elems(t.right), k) }

  lemma EndedNear(s: State, k: int)
    requires s.t.Bin? && Sorted(All(s)) && Bounds(s, k) && Ended(s.t, k)
    ensures Near(Assembled(s), k)
  {
    AssembledElems(s);
    var (a, x, b) := (Elems(s.t.left), s.t.x, Elems(s.t.right));
    assert Elems(s.t) == a + [x] + b && (s.t.left.Nil? ==> a == []) && (s.t.right.Nil? ==> b == []);
    SortedSplit(Outer(R, s.less), a, x, b, Outer(L, s.more));
    Weaken(a, x.key, k);
    Weaken(b, x.key, k);
    assert Below([], k) && Above([], k);
    hide Outer, Elems, Sorted, Below, Above, Assembled;
    BelowConcat(Outer(R, s.less), a, k);
    BelowConcat(b, Outer(L, s.more), k);
  }

  /** For every ordered tree and every key: the elements and their order stay, and the root is the
      element with that key or next to it. */
  lemma SplayedIs(t: Tree, k: int)
    requires t.Bin? && Sorted(Elems(t))
    ensures Elems(Splayed(t, k)) == Elems(t) && Near(Splayed(t, k), k)
  {
    var s := State([], t, []);
    assert All(s) == [] + Elems(t) + [] == Elems(t);
    assert Bounds(s, k);
    hide Elems, Outer, Sorted, Run;
    RunAll(s, k);
    AssembledElems(Run(s, k));
    EndedNear(Run(s, k), k);
    hide Assembled;
  }

  /** A key that is in the tree comes to the root. */
  lemma FoundAtRoot(t: Tree, k: int, i: nat)
    requires t.Bin? && Sorted(Elems(t)) && i < |Elems(t)| && Elems(t)[i].key == k
    ensures Splayed(t, k).x == Elems(t)[i]
  {
    SplayedIs(t, k);
    var r := Splayed(t, k);
    assert Elems(r) == Elems(r.left) + [r.x] + Elems(r.right);
    hide Elems, Splayed, Sorted;
    OnlyMiddle(Elems(r.left), r.x, Elems(r.right), k, i);
  }

  lemma OnlyMiddle(a: seq<Node>, x: Node, b: seq<Node>, k: int, i: nat)
    requires Below(a, k) && Above(b, k) && i < |a + [x] + b| && (a + [x] + b)[i].key == k
    ensures i == |a|
  {}
}
