/** Rank-balanced (weak-AVL) trees as values: edges carry a length of one or two,
    a tree is described from a position by the path above it, and the two
    rebalancing climbs are functions from a position to a whole tree. */
module RankTree {

  datatype Dir = L | R

  function Opp(d: Dir): Dir { if d == L then R else L }

  /** `longL`/`longR` are the two parity bits kept beside the parent link. */
  datatype Tree<T> = Nil | Bin(left: Tree<T>, longL: bool, elem: T, longR: bool, right: Tree<T>)
  {
    function Child(d: Dir): Tree<T>
      requires Bin?
    { if d == L then left else right }

    function Long(d: Dir): bool
      requires Bin?
    { if d == L then longL else longR }
  }

  /** The tree above a hole: `dir` is the side of `elem` the hole is on,
      `near` the length bit of the edge into the hole, `far` of the other edge. */
  datatype Path<T> = Top | Down(up: Path<T>, dir: Dir, near: bool, elem: T, far: bool, sib: Tree<T>)

  function Len(long: bool): nat { if long then 2 else 1 }

  /** A node seen from direction `d`. */
  function Mk<T>(d: Dir, near: Tree<T>, nearLong: bool, x: T, farLong: bool, far: Tree<T>): Tree<T> {
    if d == L then Bin(near, nearLong, x, farLong, far) else Bin(far, farLong, x, nearLong, near)
  }

  function Plug<T>(p: Path<T>, t: Tree<T>): Tree<T>
    decreases p
  {
    match p
    case Top => t
    case Down(up, d, near, x, far, sib) => Plug(up, Mk(d, t, near, x, far, sib))
  }

  // ----- in-order contents -----

  function Elems<T>(t: Tree<T>): seq<T> {
    match t
    case Nil => []
    case Bin(l, _, x, _, r) => Elems(l) + [x] + Elems(r)
  }

  /** What stands before, and after, the hole in in-order. */
  function Before<T>(p: Path<T>): seq<T> {
    match p
    case Top => []
    case Down(up, d, _, x, _, sib) => if d == L then Before(up) else Before(up) + Elems(sib) + [x]
  }

  function After<T>(p: Path<T>): seq<T> {
    match p
    case Top => []
    case Down(up, d, _, x, _, sib) => if d == L then [x] + Elems(sib) + After(up) else After(up)
  }

  lemma CatLeft<X>(a: seq<X>, b: seq<X>, c: seq<X>, d: seq<X>, e: seq<X>)
    ensures a + (b + c + d) + e == a + b + (c + d + e)
  {}

  lemma CatRight<X>(a: seq<X>, b: seq<X>, c: seq<X>, d: seq<X>, e: seq<X>)
    ensures a + (b + c + d) + e == (a + b + c) + d + e
  {}

  lemma {:induction false} ElemsPlug<T>(p: Path<T>, t: Tree<T>)
    ensures Elems(Plug(p, t)) == Before(p) + Elems(t) + After(p)
    decreases p
  {
    match p
    case Top =>
    case Down(up, d, near, x, far, sib) =>
      var m := Mk(d, t, near, x, far, sib);
      ElemsPlug(up, m);
      if d == L {
        CatLeft(Before(up), Elems(t), [x], Elems(sib), After(up));
      } else {
        CatRight(Before(up), Elems(sib), [x], Elems(t), After(up));
      }
  }

  // ----- rank -----

  function Rank<T>(t: Tree<T>): nat {
    match t
    case Nil => 0
    case Bin(l, ll, _, _, _) => Len(ll) + Rank(l)
  }

  /** The weak-AVL conditions: rank sums agree at every node and no leaf has rank two. */
  ghost predicate Balanced<T>(t: Tree<T>) {
    match t
    case Nil => true
    case Bin(l, ll, _, lr, r) =>
      && Balanced(l) && Balanced(r)
      && Len(ll) + Rank(l) == Len(lr) + Rank(r)
      && !(ll && l.Nil? && r.Nil?)
  }

  /** The path is balanced around a hole that holds a tree of rank `k`. */
  ghost predicate Fits<T>(p: Path<T>, k: nat)
    decreases p
  {
    match p
    case Top => true
    case Down(up, _, near, _, far, sib) =>
      && Balanced(sib)
      && k + Len(near) == Rank(sib) + Len(far)
      && !(k == 0 && near && sib.Nil?)
      && Fits(up, k + Len(near))
  }

  lemma RankZero<T>(t: Tree<T>)
    ensures Rank(t) == 0 <==> t.Nil?
  {}

  lemma BalancedMk<T>(d: Dir, t: Tree<T>, near: bool, x: T, far: bool, sib: Tree<T>)
    ensures Balanced(Mk(d, t, near, x, far, sib)) <==>
            Balanced(t) && Balanced(sib) && Rank(t) + Len(near) == Rank(sib) + Len(far) && !(near && t.Nil? && sib.Nil?)
    ensures Balanced(Mk(d, t, near, x, far, sib)) ==> Rank(Mk(d, t, near, x, far, sib)) == Rank(t) + Len(near)
  {}

  lemma {:induction false} BalancedPlug<T>(p: Path<T>, t: Tree<T>)
    ensures Balanced(Plug(p, t)) <==> Balanced(t) && Fits(p, Rank(t))
    decreases p
  {
    match p
    case Top =>
    case Down(up, d, near, x, far, sib) =>
      BalancedPlug(up, Mk(d, t, near, x, far, sib));
      BalancedMk(d, t, near, x, far, sib);
      RankZero(t);
  }

  lemma SameElemsPlug<T>(p: Path<T>, a: Tree<T>, b: Tree<T>)
    requires Elems(a) == Elems(b)
    ensures Elems(Plug(p, a)) == Elems(Plug(p, b))
  {
    ElemsPlug(p, a);
    ElemsPlug(p, b);
  }

  // ----- insertion -----

  predicate IsLeaf<T>(t: Tree<T>) { t.Bin? && t.left.Nil? && t.right.Nil? }

  /** The subtree `t` has grown by one rank below `p`: it is a fresh leaf, or its two edges differ. */
  ghost predicate Grown<T>(p: Path<T>, t: Tree<T>) {
    && t.Bin? && Balanced(t) && Fits(p, Rank(t) - 1)
    && (IsLeaf(t) || t.longL != t.longR)
  }

  function InsertRotate<T>(d: Dir, t: Tree<T>, x: T, sib: Tree<T>): Tree<T>
    requires t.Bin? && (t.Long(d) ==> t.Child(Opp(d)).Bin?)
  {
    if t.Long(d) then
      var c := t.Child(Opp(d));
      Mk(d,
         Mk(d, t.Child(d), false, t.elem, c.Long(d), c.Child(d)), false,
         c.elem,
         false, Mk(d, c.Child(Opp(d)), c.Long(Opp(d)), x, false, sib))
    else
      Mk(d, t.Child(d), false, t.elem, false, Mk(d, t.Child(Opp(d)), false, x, false, sib))
  }

  lemma GrownSteps<T>(p: Path<T>, t: Tree<T>)
    requires Grown(p, t) && p.Down? && !p.near
    ensures !p.far ==> Grown(p.up, Mk(p.dir, t, false, p.elem, true, p.sib))
    ensures p.far ==> !IsLeaf(t) && (t.Long(p.dir) ==> t.Child(Opp(p.dir)).Bin?)
  {
  }

  function InsertFix<T>(p: Path<T>, t: Tree<T>): Tree<T>
    requires Grown(p, t)
    decreases p
  {
    match p
    case Top => t
    case Down(up, d, near, x, far, sib) =>
      if near then Plug(up, Mk(d, t, false, x, far, sib))
      else
        GrownSteps(p, t);
        if !far then InsertFix(up, Mk(d, t, false, x, true, sib))
        else Plug(up, InsertRotate(d, t, x, sib))
  }

  lemma InsertRotateRank<T>(d: Dir, t: Tree<T>, x: T, sib: Tree<T>)
    requires t.Bin? && Balanced(t) && t.longL != t.longR && Balanced(sib)
    requires t.Long(d) ==> t.Child(Opp(d)).Bin?
    requires Rank(t) == Rank(sib) + 2
    ensures Balanced(InsertRotate(d, t, x, sib)) && Rank(InsertRotate(d, t, x, sib)) == Rank(t)
  {
    if t.Long(d) {
      var c := t.Child(Opp(d));
      assert Balanced(c);
      assert Balanced(Mk(d, t.Child(d), false, t.elem, c.Long(d), c.Child(d)));
      assert Balanced(Mk(d, c.Child(Opp(d)), c.Long(Opp(d)), x, false, sib));
    } else {
      assert Balanced(Mk(d, t.Child(Opp(d)), false, x, false, sib));
    }
  }

  lemma CatDouble<X>(a: seq<X>, t: seq<X>, b: seq<X>, c: seq<X>, e: seq<X>, x: seq<X>, s: seq<X>)
    ensures (a + t + b) + c + (e + x + s) == (a + t + (b + c + e)) + x + s
    ensures (a + t + b) + c + (e + x + s) == a + t + ((b + c + e) + x + s)
  {}

  lemma CatSingle<X>(a: seq<X>, t: seq<X>, b: seq<X>, x: seq<X>, s: seq<X>)
    ensures a + t + (b + x + s) == (a + t + b) + x + s
  {}

  lemma InsertRotateElems<T>(d: Dir, t: Tree<T>, x: T, sib: Tree<T>)
    requires t.Bin? && (t.Long(d) ==> t.Child(Opp(d)).Bin?)
    ensures Elems(InsertRotate(d, t, x, sib)) == Elems(Mk(d, t, false, x, true, sib))
  {
    var (n, f) := (Elems(t.Child(d)), Elems(sib));
    if t.Long(d) {
      var c := t.Child(Opp(d));
      if d == L {
        CatDouble(n, [t.elem], Elems(c.left), [c.elem], Elems(c.right), [x], f);
      } else {
        CatDouble(f, [x], Elems(c.left), [c.elem], Elems(c.right), [t.elem], n);
      }
    } else {
      var m := Elems(t.Child(Opp(d)));
      if d == L { CatSingle(n, [t.elem], m, [x], f); } else { CatSingle(f, [x], m, [t.elem], n); }
    }
  }

  /** The climb after an insertion restores the weak-AVL conditions. */
  lemma {:induction false} InsertFixBalanced<T>(p: Path<T>, t: Tree<T>)
    requires Grown(p, t)
    ensures Balanced(InsertFix(p, t))
    decreases p
  {
    match p
    case Top =>
    case Down(up, d, near, x, far, sib) =>
      if near {
        BalancedMk(d, t, false, x, far, sib);
        BalancedPlug(up, Mk(d, t, false, x, far, sib));
      } else {
        GrownSteps(p, t);
        if !far {
          InsertFixBalanced(up, Mk(d, t, false, x, true, sib));
        } else {
          InsertRotateRank(d, t, x, sib);
          BalancedPlug(up, InsertRotate(d, t, x, sib));
        }
      }
  }

  /** The climb after an insertion moves no element. */
  lemma {:induction false} InsertFixElems<T>(p: Path<T>, t: Tree<T>)
    requires Grown(p, t)
    ensures Elems(InsertFix(p, t)) == Elems(Plug(p, t))
    decreases p
  {
    match p
    case Top =>
    case Down(up, d, near, x, far, sib) =>
      var was := Mk(d, t, near, x, far, sib);
      if near {
        SameElemsPlug(up, Mk(d, t, false, x, far, sib), was);
      } else {
        GrownSteps(p, t);
        if !far {
          InsertFixElems(up, Mk(d, t, false, x, true, sib));
          SameElemsPlug(up, Mk(d, t, false, x, true, sib), was);
        } else {
          InsertRotateElems(d, t, x, sib);
          SameElemsPlug(up, InsertRotate(d, t, x, sib), was);
        }
      }
  }

  // ----- removal -----

  /** The subtree `t` below `p` has shrunk by one rank. */
  ghost predicate Shrunk<T>(p: Path<T>, t: Tree<T>) {
    && Balanced(t) && Fits(p, Rank(t) + 1)
    && (p.Down? && t.Nil? ==> p.sib.Bin?)
  }

  function RemoveRotate<T>(d: Dir, t: Tree<T>, x: T, sib: Tree<T>): Tree<T>
    requires sib.Bin? && (sib.Long(Opp(d)) ==> sib.Child(d).Bin?)
  {
    if sib.Long(Opp(d)) then
      var e := sib.Child(d);
      Mk(d,
         Mk(d, t, false, x, e.Long(d), e.Child(d)), true,
         e.elem,
         true, Mk(d, e.Child(Opp(d)), e.Long(Opp(d)), sib.elem, false, sib.Child(Opp(d))))
    else if sib.Long(d) then
      Mk(d, Mk(d, t, false, x, false, sib.Child(d)), true, sib.elem, true, sib.Child(Opp(d)))
    else
      Mk(d, Mk(d, t, true, x, false, sib.Child(d)), false, sib.elem, true, sib.Child(Opp(d)))
  }

  /** The sibling with both its edges made short. */
  function Demote<T>(t: Tree<T>): Tree<T> { if t.Bin? then t.(longL := false, longR := false) else t }

  lemma ShrunkSteps<T>(p: Path<T>, t: Tree<T>)
    requires Shrunk(p, t) && p.Down? && p.near
    ensures p.far ==> Shrunk(p.up, Mk(p.dir, t, true, p.elem, false, p.sib))
    ensures !p.far ==> p.sib.Bin?
    ensures !p.far && p.sib.longL && p.sib.longR ==>
              Shrunk(p.up, Mk(p.dir, t, true, p.elem, false, Demote(p.sib)))
    ensures !p.far && !(p.sib.longL && p.sib.longR) && p.sib.Long(Opp(p.dir)) ==> p.sib.Child(p.dir).Bin?
  {
  }

  function RemoveFix<T>(p: Path<T>, t: Tree<T>): Tree<T>
    requires Shrunk(p, t)
    decreases p
  {
    match p
    case Top => t
    case Down(up, d, near, x, far, sib) =>
      if !near then Plug(up, Mk(d, t, true, x, far, sib))
      else
        ShrunkSteps(p, t);
        if far then RemoveFix(up, Mk(d, t, true, x, false, sib))
        else if sib.longL && sib.longR then RemoveFix(up, Mk(d, t, true, x, false, Demote(sib)))
        else Plug(up, RemoveRotate(d, t, x, sib))
  }

  lemma RemoveRotateRank<T>(d: Dir, t: Tree<T>, x: T, sib: Tree<T>)
    requires sib.Bin? && !(sib.longL && sib.longR) && (sib.Long(Opp(d)) ==> sib.Child(d).Bin?)
    requires Balanced(t) && Balanced(sib) && Rank(sib) == Rank(t) + 2
    ensures Balanced(RemoveRotate(d, t, x, sib)) && Rank(RemoveRotate(d, t, x, sib)) == Rank(t) + 3
  {
    if sib.Long(Opp(d)) {
      var e := sib.Child(d);
      assert Balanced(e);
      assert Balanced(Mk(d, t, false, x, e.Long(d), e.Child(d)));
      assert Balanced(Mk(d, e.Child(Opp(d)), e.Long(Opp(d)), sib.elem, false, sib.Child(Opp(d))));
    } else {
      assert Balanced(Mk(d, t, !sib.Long(d), x, false, sib.Child(d)));
    }
  }

  lemma RemoveRotateElems<T>(d: Dir, t: Tree<T>, x: T, sib: Tree<T>)
    requires sib.Bin? && (sib.Long(Opp(d)) ==> sib.Child(d).Bin?)
    ensures Elems(RemoveRotate(d, t, x, sib)) == Elems(Mk(d, t, true, x, false, sib))
  {
    var (n, f) := (Elems(t), Elems(sib.Child(Opp(d))));
    if sib.Long(Opp(d)) {
      var e := sib.Child(d);
      if d == L {
        CatDouble(n, [x], Elems(e.left), [e.elem], Elems(e.right), [sib.elem], f);
      } else {
        CatDouble(f, [sib.elem], Elems(e.left), [e.elem], Elems(e.right), [x], n);
      }
    } else {
      var m := Elems(sib.Child(d));
      if d == L { CatSingle(n, [x], m, [sib.elem], f); } else { CatSingle(f, [sib.elem], m, [x], n); }
    }
  }

  /** The climb after a removal restores the weak-AVL conditions. */
  lemma {:induction false} RemoveFixBalanced<T>(p: Path<T>, t: Tree<T>)
    requires Shrunk(p, t)
    ensures Balanced(RemoveFix(p, t))
    decreases p
  {
    match p
    case Top =>
    case Down(up, d, near, x, far, sib) =>
      if !near {
        BalancedMk(d, t, true, x, far, sib);
        BalancedPlug(up, Mk(d, t, true, x, far, sib));
      } else {
        ShrunkSteps(p, t);
        if far {
          RemoveFixBalanced(up, Mk(d, t, true, x, false, sib));
        } else if sib.longL && sib.longR {
          RemoveFixBalanced(up, Mk(d, t, true, x, false, Demote(sib)));
        } else {
          RemoveRotateRank(d, t, x, sib);
          BalancedPlug(up, RemoveRotate(d, t, x, sib));
        }
      }
  }

  /** The climb after a removal moves no element. */
  lemma {:induction false} RemoveFixElems<T>(p: Path<T>, t: Tree<T>)
    requires Shrunk(p, t)
    ensures Elems(RemoveFix(p, t)) == Elems(Plug(p, t))
    decreases p
  {
    match p
    case Top =>
    case Down(up, d, near, x, far, sib) =>
      var was := Mk(d, t, near, x, far, sib);
      if !near {
        SameElemsPlug(up, Mk(d, t, true, x, far, sib), was);
      } else {
        ShrunkSteps(p, t);
        if far {
          RemoveFixElems(up, Mk(d, t, true, x, false, sib));
          SameElemsPlug(up, Mk(d, t, true, x, false, sib), was);
        } else if sib.longL && sib.longR {
          RemoveFixElems(up, Mk(d, t, true, x, false, Demote(sib)));
          SameElemsPlug(up, Mk(d, t, true, x, false, Demote(sib)), was);
        } else {
          RemoveRotateElems(d, t, x, sib);
          SameElemsPlug(up, RemoveRotate(d, t, x, sib), was);
        }
      }
  }

  // ----- taking a node out -----

  /** The position of the leftmost node of `t`. */
  function Leftmost<T>(p: Path<T>, t: Tree<T>): (r: (Path<T>, Tree<T>))
    requires t.Bin?
    ensures r.1.Bin? && r.1.left.Nil?
    decreases t
  {
    if t.left.Nil? then (p, t)
    else Leftmost(Down(p, L, t.longL, t.elem, t.longR, t.right), t.left)
  }

  function MinElem<T>(t: Tree<T>): T
    requires t.Bin?
  {
    if t.left.Nil? then t.elem else MinElem(t.left)
  }

  lemma {:induction false} LeftmostPlug<T>(p: Path<T>, t: Tree<T>)
    requires t.Bin?
    ensures var (q, m) := Leftmost(p, t); Plug(q, m) == Plug(p, t) && m.elem == MinElem(t) && Before(q) == Before(p)
    decreases t
  {
    if t.left.Bin? {
      LeftmostPlug(Down(p, L, t.longL, t.elem, t.longR, t.right), t.left);
    }
  }

  /** Position left behind when the root of `t` below `p` is taken out: an only child moves up,
      otherwise the in-order successor takes the place of the root. */
  function Unlink<T>(p: Path<T>, t: Tree<T>): (Path<T>, Tree<T>)
    requires t.Bin?
  {
    if t.left.Nil? || t.right.Nil? then (p, if t.right.Nil? then t.left else t.right)
    else
      var (q, m) := Leftmost(Down(p, R, t.longR, MinElem(t.right), t.longL, t.left), t.right);
      (q, m.right)
  }

  /** The whole removal climb, with the case of a parent that has just become a leaf. */
  ghost predicate TakenOut<T>(p: Path<T>, t: Tree<T>) {
    Balanced(t) && Fits(p, Rank(t) + 1)
  }

  function RemoveColor<T>(p: Path<T>, t: Tree<T>): Tree<T>
    requires TakenOut(p, t)
  {
    if p.Down? && t.Nil? && p.sib.Nil? then RemoveFix(p.up, Bin(Nil, false, p.elem, false, Nil))
    else RemoveFix(p, t)
  }

  lemma RemoveColorOk<T>(p: Path<T>, t: Tree<T>)
    requires TakenOut(p, t)
    ensures Balanced(RemoveColor(p, t))
    ensures Elems(RemoveColor(p, t)) == Elems(Plug(p, t))
  {
    if p.Down? && t.Nil? && p.sib.Nil? {
      var leaf := Bin(Nil, false, p.elem, false, Nil);
      RemoveFixBalanced(p.up, leaf);
      RemoveFixElems(p.up, leaf);
      SameElemsPlug(p.up, leaf, Mk(p.dir, t, p.near, p.elem, p.far, p.sib));
    } else {
      RemoveFixBalanced(p, t);
      RemoveFixElems(p, t);
    }
  }

  lemma OnlyChild<T>(t: Tree<T>)
    requires t.Bin? && Balanced(t) && (t.left.Nil? || t.right.Nil?)
    ensures var c := if t.right.Nil? then t.left else t.right; Balanced(c) && Rank(t) == Rank(c) + 1
    ensures var c := if t.right.Nil? then t.left else t.right; c.Bin? ==> !c.longL && !c.longR
  {
    RankZero(t.left);
    RankZero(t.right);
    var c := if t.right.Nil? then t.left else t.right;
    if c.Bin? {
      RankZero(c.left);
      RankZero(c.right);
    }
  }

  lemma SplicedPath<T>(p: Path<T>, t: Tree<T>)
    requires t.Bin? && Balanced(t) && Fits(p, Rank(t)) && t.left.Bin? && t.right.Bin?
    ensures Balanced(t.right) && Fits(Down(p, R, t.longR, MinElem(t.right), t.longL, t.left), Rank(t.right))
  {}

  lemma UnlinkTakenOut<T>(p: Path<T>, t: Tree<T>)
    requires t.Bin? && Balanced(Plug(p, t))
    ensures TakenOut(Unlink(p, t).0, Unlink(p, t).1)
  {
    hide Rank, Balanced, Plug, Leftmost, MinElem;
    BalancedPlug(p, t);
    if t.left.Nil? || t.right.Nil? {
      OnlyChild(t);
    } else {
      var s := Down(p, R, t.longR, MinElem(t.right), t.longL, t.left);
      var (q, m) := Leftmost(s, t.right);
      LeftmostPlug(s, t.right);
      BalancedPlug(s, t.right);
      BalancedPlug(q, m);
      SplicedPath(p, t);
      OnlyChild(m);
    }
  }

  /** Taking out the root of `t` leaves every other element, in order. */
  lemma UnlinkElems<T>(p: Path<T>, t: Tree<T>)
    requires t.Bin?
    ensures var (q, s) := Unlink(p, t); Elems(Plug(q, s)) == Before(p) + Elems(t.left) + Elems(t.right) + After(p)
  {
    if t.left.Nil? || t.right.Nil? {
      hide Plug, Leftmost, MinElem;
      var c := if t.right.Nil? then t.left else t.right;
      ElemsPlug(p, c);
      assert Before(p) + Elems(t.left) + Elems(t.right) == Before(p) + Elems(c);
    } else {
      SuccessorElems(p, t);
    }
  }

  lemma SuccessorElems<T>(p: Path<T>, t: Tree<T>)
    requires t.Bin? && t.left.Bin? && t.right.Bin?
    ensures var (q, s) := Unlink(p, t); Elems(Plug(q, s)) == Before(p) + Elems(t.left) + Elems(t.right) + After(p)
  {
    var s := Down(p, R, t.longR, MinElem(t.right), t.longL, t.left);
    var (q, m) := Leftmost(s, t.right);
    assert Elems(m) == [m.elem] + Elems(m.right);
    hide Plug, Leftmost, MinElem, Elems;
    LeftmostPlug(s, t.right);
    ElemsPlug(s, t.right);
    ElemsPlug(q, m);
    ElemsPlug(q, m.right);
    SpliceSuccessor(Before(p), Elems(t.left), m.elem, Elems(m.right), After(q), Elems(t.right), After(p));
  }

  lemma SpliceSuccessor<X>(b: seq<X>, l: seq<X>, x: X, mr: seq<X>, aq: seq<X>, r: seq<X>, a: seq<X>)
    requires (b + l + [x]) + ([x] + mr) + aq == (b + l + [x]) + r + a
    ensures (b + l + [x]) + mr + aq == b + l + r + a
  {
    var k := |b + l + [x]|;
    assert [x] + mr + aq == ((b + l + [x]) + ([x] + mr) + aq)[k..];
    assert r + a == ((b + l + [x]) + r + a)[k..];
    assert (b + l + [x]) + mr + aq == b + l + ([x] + mr + aq);
    assert b + l + r + a == b + l + (r + a);
  }

  // ----- height -----

  function Size<T>(t: Tree<T>): nat {
    match t
    case Nil => 0
    case Bin(l, _, _, _, r) => Size(l) + 1 + Size(r)
  }

  function Max(a: nat, b: nat): nat { if a < b then b else a }

  /** Nodes on the longest path down from the root. */
  function Height<T>(t: Tree<T>): nat {
    match t
    case Nil => 0
    case Bin(l, _, _, _, r) => 1 + Max(Height(l), Height(r))
  }

  function Pow2(n: nat): nat { if n == 0 then 1 else 2 * Pow2(n - 1) }

  lemma {:induction false} Pow2Mono(a: nat, b: nat)
    requires a <= b
    ensures Pow2(a) <= Pow2(b)
    decreases b
  {
    if a < b { Pow2Mono(a, b - 1); }
  }

  lemma {:induction false} HeightAtMostRank<T>(t: Tree<T>)
    requires Balanced(t)
    ensures Height(t) <= Rank(t)
  {
    if t.Bin? {
      HeightAtMostRank(t.left);
      HeightAtMostRank(t.right);
    }
  }

  lemma DoubleSquare(a: nat, b: nat, p: nat)
    requires p <= a * a && p <= b * b
    ensures 4 * p <= (a + b) * (a + b)
  {
    if a <= b {
      assert a * a <= a * b by { assert a * (b - a) >= 0; }
    } else {
      assert b * b <= a * b by { assert b * (a - b) >= 0; }
    }
    assert (a + b) * (a + b) == a * a + 2 * (a * b) + b * b;
  }

  lemma {:induction false} RankBound<T>(t: Tree<T>)
    requires Balanced(t)
    ensures Pow2(Rank(t)) <= (Size(t) + 1) * (Size(t) + 1)
  {
    match t
    case Nil =>
    case Bin(l, ll, _, lr, r) =>
      RankBound(l);
      RankBound(r);
      RankStep(Rank(t), Rank(l), Rank(r), Size(l) + 1, Size(r) + 1);
  }

  lemma RankStep(k: nat, kl: nat, kr: nat, a: nat, b: nat)
    requires 1 <= k <= kl + 2 && k <= kr + 2 && 1 <= a && 1 <= b
    requires Pow2(kl) <= a * a && Pow2(kr) <= b * b
    ensures Pow2(k) <= (a + b) * (a + b)
  {
    if k == 1 {
      assert Pow2(1) == 2;
      Product(a + b);
    } else {
      Pow2Mono(k - 2, kl);
      Pow2Mono(k - 2, kr);
      DoubleSquare(a, b, Pow2(k - 2));
      assert Pow2(k) == 4 * Pow2(k - 2);
    }
  }

  lemma Product(a: nat)
    requires a >= 2
    ensures a * a >= 4
  {
    assert (a - 2) * (a + 2) >= 0;
  }

  /** A rank-balanced tree of n nodes is at most 2 lg (n + 1) high. */
  lemma HeightBound<T>(t: Tree<T>)
    requires Balanced(t)
    ensures Pow2(Height(t)) <= (Size(t) + 1) * (Size(t) + 1)
  {
    hide Rank, Height, Size;
    HeightAtMostRank(t);
    Pow2Mono(Height(t), Rank(t));
    RankBound(t);
  }

  lemma {:induction false} SizeElems<T>(t: Tree<T>)
    ensures Size(t) == |Elems(t)|
  {
    if t.Bin? {
      SizeElems(t.left);
      SizeElems(t.right);
    }
  }

  // ----- the diagnostic rank -----

  /** The rank reported by the diagnostic walk: -1 marks a node whose own sums disagree. */
  function DiagRank<T>(t: Tree<T>): int {
    match t
    case Nil => 0
    case Bin(l, ll, _, lr, r) =>
      var left := Len(ll) + DiagRank(l);
      var right := Len(lr) + DiagRank(r);
      if left != right || (left == 2 && l.Nil? && r.Nil?) then -1 else left
  }

  ghost predicate DiagAccepts<T>(t: Tree<T>) {
    DiagRank(t) >= 0 && (t.Bin? ==> DiagAccepts(t.left) && DiagAccepts(t.right))
  }

  /** The diagnostic is the rank on balanced trees, and asking it at every node decides balance. */
  lemma {:induction false} DiagExact<T>(t: Tree<T>)
    ensures Balanced(t) ==> DiagRank(t) == Rank(t)
    ensures DiagAccepts(t) <==> Balanced(t)
  {
    if t.Bin? {
      DiagExact(t.left);
      DiagExact(t.right);
      RankZero(t.left);
    }
  }

  /** Sums that agree although a child was rejected: both were, behind edges of equal length, or one was,
      behind a long edge, and the other reports rank zero behind a short one. */
  predicate MaskedHere<T>(t: Tree<T>) {
    t.Bin? &&
    var (l, r) := (DiagRank(t.left), DiagRank(t.right));
    || (l == -1 && r == -1 && t.longL == t.longR)
    || (l == -1 && t.longL && r == 0 && !t.longR)
    || (l == 0 && !t.longL && r == -1 && t.longR)
  }

  predicate Masked<T>(t: Tree<T>) { t.Bin? && (MaskedHere(t) || Masked(t.left) || Masked(t.right)) }

  /** These are all the ways in which a node with a rejected child is accepted. */
  lemma MaskedIs<T>(t: Tree<T>)
    ensures DiagRank(t) >= -1
    ensures MaskedHere(t) <==> DiagRank(t) >= 0 && t.Bin? && (DiagRank(t.left) < 0 || DiagRank(t.right) < 0)
  {}

  lemma {:induction false} MaskedBad<T>(t: Tree<T>)
    ensures Masked(t) ==> !Balanced(t)
  {
    if t.Bin? {
      DiagExact(t.left);
      DiagExact(t.right);
      MaskedBad(t.left);
      MaskedBad(t.right);
    }
  }

  lemma {:induction false} UnmaskedGood<T>(t: Tree<T>)
    ensures DiagRank(t) >= 0 && !Masked(t) ==> Balanced(t)
  {
    if t.Bin? {
      MaskedIs(t);
      UnmaskedGood(t.left);
      UnmaskedGood(t.right);
      DiagExact(t.left);
      DiagExact(t.right);
      RankZero(t.left);
    }
  }

  /** Asked at the root alone the diagnostic is right about balance exactly when it rejects the tree or no
      node of it masks a rejected child. */
  lemma DiagAtRoot<T>(t: Tree<T>)
    ensures (DiagRank(t) >= 0 <==> Balanced(t)) <==> (DiagRank(t) < 0 || !Masked(t))
  {
    DiagExact(t);
    MaskedBad(t);
    UnmaskedGood(t);
  }

  /** A rejected child behind a long edge passes for rank one, and two rejected children for rank zero or one. */
  lemma DiagMisses<T>(x: T, y: T)
    ensures var bad := Bin(Nil, true, x, false, Nil);
            var (one, two, far) := (Bin(bad, true, y, false, Nil), Bin(bad, false, y, false, bad),
                Bin(bad, true, y, true, bad));
            && DiagRank(one) == 1 && DiagRank(two) == 0 && DiagRank(far) == 1
            && !Balanced(one) && !Balanced(two) && !Balanced(far)
  {
    var bad := Bin(Nil, true, x, false, Nil);
    assert DiagRank(bad) == -1;
    DiagExact(bad);
  }
}
