/** The operations on a rank-balanced tree in memory: search, insertion, removal and in-order
    steps, each rewriting nodes in place as the climbing loops of the source do. */
module RbTree {
  import opened RankTree
  import opened RbMemory

  class Head {
    var root: Node?
    ghost var mem: Mem
    ghost var tree: Tree<Node>

    /** The memory holds a weak-AVL tree with strictly ascending keys. */
    ghost predicate Valid()
      reads this, mem.Keys
    {
      && Sync() && mem.Keys == Nodes(tree) && At(mem, Top, tree, root)
      && Balanced(tree) && Sorted(Elems(tree))
    }

    constructor ()
      ensures Valid() && Elems(tree) == []
    {
      root, mem, tree := null, map[], Nil;
    }

    /** Every tree that insertions and removals lead to is at most 2 lg (n + 1) high. */
    lemma ReachableHeight()
      requires Valid()
      ensures Pow2(Height(tree)) <= (|Elems(tree)| + 1) * (|Elems(tree)| + 1)
    {
      HeightBound(tree);
      SizeElems(tree);
    }

    /** The ghost memory is the memory. */
    ghost predicate Sync()
      reads `mem, mem.Keys
    {
      forall x :: x in mem ==> x.Get() == mem[x]
    }

    method SetLink(x: Node, d: Dir, n: Node?)
      requires Sync() && x in mem
      modifies `mem, x`left, x`right
      ensures Sync() && mem == old(mem)[x := old(mem)[x].WithLink(d, n)]
    {
      if d == L { x.left := n; } else { x.right := n; }
      mem := mem[x := mem[x].WithLink(d, n)];
    }

    method FlipRed(x: Node, d: Dir)
      requires Sync() && x in mem
      modifies `mem, x`redL, x`redR
      ensures Sync() && mem == Flip(old(mem), x, d)
    {
      if d == L { x.redL := !x.redL; } else { x.redR := !x.redR; }
      mem := Flip(mem, x, d);
    }

    method GetLink(x: Node, d: Dir) returns (n: Node?)
      requires Sync() && x in mem
      ensures n == mem[x].Link(d)
    {
      n := if d == L then x.left else x.right;
    }

    method GetRed(x: Node, d: Dir) returns (red: bool)
      requires Sync() && x in mem
      ensures red == mem[x].Red(d)
    {
      red := if d == L then x.redL else x.redR;
    }

    method GetUp(x: Node) returns (n: Node?)
      requires Sync() && x in mem
      ensures n == mem[x].up
    {
      n := x.up;
    }

    /** Replaces the parent pointer and keeps the bits stored beside it. */
    method SetParent(x: Node, up: Node?)
      requires Sync() && x in mem
      modifies `mem, x`up
      ensures Sync() && mem == old(mem)[x := old(mem)[x].(up := up)]
    {
      x.up := up;
      mem := mem[x := mem[x].(up := up)];
    }

    /** Replaces the whole parent word by a plain pointer, which clears both bits. */
    method SetUp(x: Node, up: Node?)
      requires Sync() && x in mem
      modifies `mem, x`up, x`redL, x`redR
      ensures Sync() && mem == old(mem)[x := old(mem)[x].(up := up, redL := false, redR := false)]
    {
      x.up, x.redL, x.redR := up, false, false;
      mem := mem[x := mem[x].(up := up, redL := false, redR := false)];
    }

    /** Rotates `tmp`, the child of `elm` away from `d`, above `elm`. The link into `elm` from above
        is left to the caller. */
    method Rotate(elm: Node, tmp: Node, d: Dir)
      requires Sync() && RotateReady(mem, elm, tmp, d)
      modifies `mem, mem.Keys
      ensures Sync() && mem == RotateMem(old(mem), elm, tmp, d)
    {
      var mid := GetLink(tmp, d);
      SetLink(elm, Opp(d), mid);
      if mid != null {
        SetParent(mid, elm);
      }
      SetLink(tmp, d, elm);
      SetParent(elm, tmp);
    }

    /** Replaces `out` by `inn` below `par`. */
    method SwapChild(par: Node?, out: Node?, inn: Node?)
      requires Sync() && (par != null ==> par in mem)
      modifies `root, `mem, mem.Keys
      ensures Sync()
      ensures par == null ==> root == inn && mem == old(mem)
      ensures par != null ==> root == old(root)
      ensures par != null ==>
              mem == old(mem)[par := old(mem)[par].WithLink(if out == old(mem)[par].left then L else R, inn)]
    {
      if par == null {
        root := inn;
      } else if out == par.left {
        SetLink(par, L, inn);
      } else {
        SetLink(par, R, inn);
      }
    }
  
    /** Rotates `child`, which hangs on side `d` of `parent`, above `parent` and hangs it from the
        grandparent; `clear` says whether its parent word is replaced whole. */
    method Lift(gpar: Node?, parent: Node, child: Node, d: Dir, clear: bool)
      requires Sync() && RotateReady(mem, parent, child, Opp(d)) && (gpar != null ==> gpar in mem)
      modifies this, mem.Keys
      ensures Sync() && mem == LiftMem(old(mem), gpar, parent, child, d, clear)
      ensures root == if gpar == null then child else old(root)
    {
      hide RotateMem, Head.Sync;
      Rotate(parent, child, Opp(d));
      if clear { SetUp(child, gpar); } else { SetParent(child, gpar); }
      SwapChild(gpar, parent, child);
    }
  
    /** Inner half of the double rotation that ends an insertion climb. */
    method SinkAfterInsert(parent: Node, elm: Node, child: Node, d: Dir)
      requires Sync() && parent in mem && parent != elm && parent != child && RotateReady(mem, elm, child, d)
      requires mem[child].Link(d) != parent
      modifies `mem, mem.Keys
      ensures Sync() && mem == SinkInsertMem(old(mem), parent, elm, child, d)
    {
      hide RotateMem, Head.Sync, Flip;
      Rotate(elm, child, d);
      var red := GetRed(child, Opp(d));
      if red {
        FlipRed(parent, d);
      }
      FlipRed(elm, d);
      red := GetRed(child, d);
      if red {
        FlipRed(elm, Opp(d));
      }
    }
  
    /** The rotation that ends an insertion climb: `elm` is two ranks above its sibling. */
    method RotateAfterInsert(parent: Node, elm: Node, child0: Node?, d: Dir, ghost p: Path<Node>, ghost t: Tree<Node>)
      requires Sync() && InsertPivot(mem, p, t, root) && p.elem == parent && p.dir == d && t.elem == elm
      requires t.Long(d) ==> child0 == RootOf(t.Child(Opp(d)))
      modifies this, mem.Keys
      ensures Sync() && mem.Keys == old(mem.Keys)
      ensures At(mem, p.up, InsertRotate(d, t, parent, p.sib), root)
    {
      hide Linked, LinkedPath, Nodes, PathNodes, SinkInsertMem, RotateReady, At, LiftMem, Head.Sync;
      ghost var (m, c) := (mem, t.Child(Opp(d)));
      InsertPivotNodes(m, p, t, root);
      var gpar := GetUp(parent);
      SetUp(parent, gpar);
      assert mem == Bare(m, parent);
      var child := child0;
      var red := GetRed(elm, d);
      if red {
        InsertSunk(m, p, t, root);
        SinkAfterInsert(parent, elm, child, d);
        DoublePieces(m, mem, p, t, root, false, c.Long(d));
        LiftMemOk(mem, parent, child, d, true, p.up, Mk(d, t.Child(d), false, elm, c.Long(d), c.Child(d)),
            c.Child(Opp(d)), p.sib, root);
      } else {
        child := elm;
        SinglePieces(m, mem, p, t, root);
        LiftMemOk(mem, parent, child, d, true, p.up, t.Child(d), t.Child(Opp(d)), p.sib, root);
      }
      Lift(gpar, parent, child, d, true);
    }
  
    /** Climbs from the grown subtree at `elm0` until the weak-AVL conditions hold again. */
    method DoInsertColor(parent0: Node, elm0: Node, ghost p0: Path<Node>, ghost t0: Tree<Node>)
      requires Sync() && At(mem, p0, t0, root) && Grown(p0, t0) && p0.Down? && p0.elem == parent0
      requires IsLeaf(t0) && t0.elem == elm0
      modifies this, mem.Keys
      ensures Sync() && mem.Keys == old(mem.Keys)
      ensures At(mem, Top, InsertFix(p0, t0), root)
    {
      hide Linked, LinkedPath, Nodes, PathNodes, At, Head.Sync, InsertRotate, Balanced, Fits, Flip, Rank, Mk;
      ghost var (p, t) := (p0, t0);
      var parent, elm, child: Node? := parent0, elm0, null;
      while true
        invariant Sync() && mem.Keys == old(mem.Keys) && At(mem, p, t, root)
        invariant p.Down? && p.elem == parent && Grown(p, t) && t.elem == elm
        invariant InsertFix(p, t) == InsertFix(p0, t0)
        invariant t.longL != t.longR ==> child == RootOf(if t.longL then t.right else t.left)
        decreases p
      {
        ghost var q := p;
        SideOfHole(mem, p, t, root);
        var gpar := GetUp(parent);
        var right := GetLink(parent, R);
        var elmdir := if right == elm then R else L;
        var red := GetRed(parent, elmdir);
        if red {
          FlipPath(mem, p, t, root, elmdir);
          FlipRed(parent, elmdir);
          ShortenEdge(mem, p, t, root);
          return;
        }
        GrownSteps(p, t);
        FlipPath(mem, p, t, root, Opp(elmdir));
        red := GetRed(parent, Opp(elmdir));
        FlipRed(parent, Opp(elmdir));
        p := FlipBit(p, Opp(elmdir));
        if red {
          InsertAtPivot(mem, p, q, t, root);
          RotateAfterInsert(parent, elm, child, elmdir, p, t);
          AtPlug(mem, p.up, InsertRotate(elmdir, t, parent, p.sib), root);
          return;
        }
        AtUp(mem, p, t, root);
        MkParts(p, t);
        p, t := p.up, Mk(elmdir, t, false, parent, true, p.sib);
        child, elm := elm, parent;
        if gpar == null {
          return;
        }
        parent := gpar;
      }
    }
  
    method SetBothRed(x: Node)
      requires Sync() && x in mem
      modifies `mem, x`redL, x`redR
      ensures Sync() && mem == BothRed(old(mem), x)
    {
      x.redL, x.redR := true, true;
      mem := BothRed(mem, x);
    }

    /** Inner half of the double rotation that ends a removal climb. */
    method SinkAfterRemove(parent: Node, sib: Node, top: Node, e: Dir)
      requires Sync() && parent in mem && RotateReady(mem, sib, top, e)
      modifies `mem, mem.Keys
      ensures Sync() && mem == SinkRemoveMem(old(mem), parent, sib, top, e)
    {
      hide RotateMem, Head.Sync, Flip, BothRed;
      Rotate(sib, top, e);
      var red := GetRed(top, Opp(e));
      FlipRed(parent, Opp(e));
      if red {
        FlipRed(parent, e);
      }
      red := GetRed(top, e);
      FlipRed(sib, e);
      if red {
        FlipRed(sib, Opp(e));
      }
      SetBothRed(top);
    }

    /** The rotation that ends a removal climb, at the position seen from the sibling. */
    method RotateAfterRemove(parent: Node, sib: Node, e: Dir, ghost p: Path<Node>, ghost s: Tree<Node>)
      requires Sync() && RemovePivot(mem, p, s, root) && p.elem == parent && p.dir == e && s.elem == sib
      modifies this, mem.Keys
      ensures Sync() && mem.Keys == old(mem.Keys)
      ensures At(mem, p.up, RemoveRotate(Opp(e), p.sib, parent, s), root)
    {
      hide Linked, LinkedPath, Nodes, PathNodes, SinkRemoveMem, RotateReady, At, LiftMem, Head.Sync, Mk, RemoveRotate,
           Sunk, Pieces, Recolored;
      ghost var (m, c) := (mem, s.Child(Opp(e)));
      RemovePivotNodes(m, p, s, root);
      RemoveRotateTurned(e, p.sib, parent, s);
      var gpar := GetUp(parent);
      var elm := sib;
      var red := GetRed(sib, e);
      if red {
        var top := GetLink(sib, Opp(e));
        elm := top;
        RemoveSunk(m, p, s, root);
        SinkAfterRemove(parent, sib, elm, e);
        DoublePieces(m, mem, p, s, root, false, c.Long(e));
        RootMk(e, s.Child(e), false, sib, c.Long(e), c.Child(e));
        LiftMemOk(mem, parent, elm, e, false, p.up, Mk(e, s.Child(e), false, sib, c.Long(e), c.Child(e)),
            c.Child(Opp(e)), p.sib, root);
      } else {
        RecolorSibling(m, p, s, root);
        red := GetRed(sib, Opp(e));
        if red {
          FlipRed(parent, Opp(e));
        }
        FlipRed(sib, e);
        SinglePieces(m, mem, p, s, root);
        LiftMemOk(mem, parent, elm, e, false, p.up, s.Child(e), s.Child(Opp(e)), p.sib, root);
      }
      Lift(gpar, parent, elm, e, false);
    }

    /** Climbs from a subtree that has shrunk until the weak-AVL conditions hold again. */
    method ClimbRemove(parent0: Node, elm0: Node?, ghost p0: Path<Node>, ghost t0: Tree<Node>)
      requires Sync() && At(mem, p0, t0, root) && Shrunk(p0, t0) && p0.Down? && p0.elem == parent0 && RootOf(t0) == elm0
      modifies this, mem.Keys
      ensures Sync() && mem.Keys == old(mem.Keys)
      ensures At(mem, Top, RemoveFix(p0, t0), root)
    {
      hide Linked, LinkedPath, Nodes, PathNodes, At, Head.Sync, RemoveRotate, Balanced, Fits, Flip, Rank, Mk, Shrunk,
           RemoveFix, Demote, Plug, RemovePivot;
      ghost var (p, t) := (p0, t0);
      var parent, elm := parent0, elm0;
      while true
        invariant Sync() && mem.Keys == old(mem.Keys) && At(mem, p, t, root)
        invariant p.Down? && p.elem == parent && Shrunk(p, t) && RootOf(t) == elm
        invariant RemoveFix(p, t) == RemoveFix(p0, t0)
        decreases p
      {
        ghost var q := p;
        ShrunkSide(mem, p, t, root);
        var gpar := GetUp(parent);
        var right := GetLink(parent, R);
        var elmdir := if right == elm then R else L;
        var red := GetRed(parent, elmdir);
        if !red {
          FlipPath(mem, p, t, root, elmdir);
          FlipRed(parent, elmdir);
          LengthenEdge(mem, p, t, root);
          return;
        }
        red := GetRed(parent, Opp(elmdir));
        if red {
          FlipPath(mem, p, t, root, Opp(elmdir));
          FlipRed(parent, Opp(elmdir));
          q := FlipBit(p, Opp(elmdir));
        } else {
          var sib := GetLink(parent, Opp(elmdir));
          var redL := GetRed(sib, L);
          var redR := GetRed(sib, R);
          if redL && redR {
            DemoteSib(mem, p, t, root);
            FlipRed(sib, L);
            FlipRed(sib, R);
            q := p.(sib := Demote(p.sib));
          } else {
            RemoveAtPivot(mem, p, t, root);
            RotateAfterRemove(parent, sib, Opp(elmdir), Turn(p, t), p.sib);
            AtPlug(mem, p.up, RemoveRotate(elmdir, t, parent, p.sib), root);
            return;
          }
        }
        ClimbAfterRemove(mem, p, q, t, root);
        p, t := p.up, Mk(elmdir, t, true, parent, false, q.sib);
        elm := parent;
        if gpar == null {
          TopOfRemove(t);
          return;
        }
        parent := gpar;
      }
    }
  
    /** Restores the weak-AVL conditions from the place where a node was taken out. */
    method DoRemoveColor(parent: Node, elm: Node?, ghost p: Path<Node>, ghost t: Tree<Node>)
      requires Sync() && At(mem, p, t, root) && TakenOut(p, t) && p.Down? && p.elem == parent && RootOf(t) == elm
      modifies this, mem.Keys
      ensures Sync() && mem.Keys == old(mem.Keys)
      ensures At(mem, Top, RemoveColor(p, t), root)
    {
      hide Linked, LinkedPath, Nodes, PathNodes, At, Head.Sync, Balanced, Fits, Rank, Mk, Shrunk, RemoveFix,
           RemoveColor;
      StartRemove(mem, p, t, root);
      var left := GetLink(parent, L);
      var right := GetLink(parent, R);
      if right == elm && left == elm {
        BareLeaf(mem, p, root);
        var up := GetUp(parent);
        SetUp(parent, up);
        if up == null {
          TopOfRemove(Bin(Nil, false, parent, false, Nil));
        } else {
          ClimbRemove(up, parent, p.up, Bin(Nil, false, parent, false, Nil));
        }
      } else {
        ClimbRemove(parent, elm, p, t);
      }
    }
  
    method SetWord(x: Node, up: Node?, redL: bool, redR: bool)
      requires Sync() && x in mem
      modifies `mem, x`up, x`redL, x`redR
      ensures Sync() && mem == old(mem)[x := old(mem)[x].(up := up, redL := redL, redR := redR)]
    {
      x.up, x.redL, x.redR := up, redL, redR;
      mem := mem[x := mem[x].(up := up, redL := redL, redR := redR)];
    }

    /** Finds the leftmost node below `n`. */
    method Descend(n: Node, ghost t: Tree<Node>, ghost up: Node?) returns (x: Node)
      requires Sync() && Linked(mem, t, up) && t.Bin? && t.elem == n
      ensures x == MinTree(t).elem
    {
      x := n;
      ghost var (s, u) := (t, up);
      while true
        invariant Linked(mem, s, u) && s.Bin? && s.elem == x && MinTree(s) == MinTree(t)
        decreases s
      {
        TreeLink(mem, s, u, L);
        var left := GetLink(x, L);
        if left == null { return; }
        s, u, x := s.left, x, left;
      }
    }

    method RelinkBelow(l: Node, r: Node, inn: Node, ghost par0: Node, ghost c0: Node?) returns (par: Node, c: Node?)
      requires Sync() && l in mem && r in mem && inn in mem && par0 in mem && l != inn
      requires c0 == mem[inn].right && par0 == (if r == inn then inn else mem[inn].up)
      modifies this, mem.Keys
      ensures Sync() && par == par0 && c == c0 && root == old(root) && mem == SpliceBelow(old(mem), l, r, inn, par, c)
    {
      hide Head.Sync;
      par := r;
      SetParent(l, inn);
      SetLink(inn, L, l);
      c := GetLink(inn, R);
      if par != inn {
        SetParent(par, inn);
        SetLink(inn, R, par);
        var up := GetUp(inn);
        par := up;
        SetLink(par, L, c);
      }
    }

    /** The link surgery of a splice, once the successor `inn` is known. */
    method Relink(out: Node, l: Node, r: Node, inn: Node, ghost par0: Node, ghost c0: Node?)
        returns (par: Node, c: Node?)
      requires Sync() && out in mem && inn in mem && SpliceReady(mem, mem[out].up, out, l, r, inn, par0, c0)
      requires c0 == mem[inn].right && par0 == (if r == inn then inn else mem[inn].up)
      modifies this, mem.Keys
      ensures Sync() && par == par0 && c == c0 && mem == SpliceMem(old(mem), old(mem)[out].up, out, l, r, inn, par, c)
      ensures root == if old(mem)[out].up == null then inn else old(root)
    {
      hide Head.Sync, SpliceBelow;
      var opar := GetUp(out);
      par, c := RelinkBelow(l, r, inn, par0, c0);
      var redL := GetRed(out, L);
      var redR := GetRed(out, R);
      SetWord(inn, opar, redL, redR);
      SwapChild(opar, out, inn);
      if c != null {
        SetUp(c, par);
      }
    }

    /** Puts the in-order successor of `out` in the place of `out`. */
    method Splice(out: Node, l: Node, r: Node, ghost p: Path<Node>, ghost t: Tree<Node>) returns (par: Node, c: Node?)
      requires Sync() && At(mem, p, t, root) && Balanced(Plug(p, t)) && t.Bin? && t.elem == out
      requires t.left.Bin? && t.right.Bin? && t.left.elem == l && t.right.elem == r
      modifies this, mem.Keys
      ensures Sync() && mem.Keys == old(mem.Keys) && At(mem, Unlink(p, t).0, Unlink(p, t).1, root)
      ensures par == SpliceParent(t) && c == RootOf(MinTree(t.right).right)
    {
      hide Linked, LinkedPath, Nodes, PathNodes, At, Head.Sync, MinTree, SpliceParent, Unlink, SpliceMem, SpineMem;
      ghost var (m, rt, mt) := (mem, root, MinTree(t.right));
      SpliceStart(m, p, t, root);
      SpliceMemOk(m, p, t, root);
      var inn := Descend(r, t.right, out);
      par, c := Relink(out, l, r, inn, SpliceParent(t), RootOf(mt.right));
      SplicedOk(m, mem, p, t, rt, root);
    }
  
    /** Initialises `elm` as a leaf below `parent` and stores it in the empty link. */
    method Hang(parent: Node?, d: Dir, elm: Node, ghost p: Path<Node>)
      requires Sync() && At(mem, p, Nil, root) && elm !in mem && elm !in PathNodes(p)
      requires parent == ParentOf(p) && (p.Down? ==> p.dir == d)
      modifies this, mem.Keys, elm
      ensures Sync() && mem.Keys == old(mem.Keys) + {elm} && At(mem, p, Bin(Nil, false, elm, false, Nil), root)
              && tree == old(tree)
    {
      hide Linked, LinkedPath, Nodes, PathNodes, At;
      HangLeaf(mem, p, root, elm);
      elm.left, elm.right, elm.up, elm.redL, elm.redR := null, null, parent, false, false;
      mem := mem[elm := Cell(null, null, parent, false, false)];
      if parent == null {
        root := elm;
      } else {
        SetLink(parent, d, elm);
      }
    }

    /** Hangs the fresh node `elm` below `parent` and rebalances. */
    method InsertFinish(parent: Node?, d: Dir, elm: Node, ghost p: Path<Node>)
      requires Valid() && elm !in mem && tree == Plug(p, Nil) && parent == ParentOf(p) && (p.Down? ==> p.dir == d)
      requires AllBelow(Before(p), elm.key) && AllAbove(After(p), elm.key)
      modifies this, mem.Keys, elm
      ensures Valid() && mem.Keys == old(mem.Keys) + {elm}
      ensures Elems(tree) == Before(p) + [elm] + After(p) && old(Elems(tree)) == Before(p) + After(p)
    {
      hide Linked, LinkedPath, Nodes, PathNodes, At, Balanced, Sorted, Plug, Elems, Before, After, InsertFix, Grown,
           AllBelow, AllAbove, Head.Sync;
      ghost var leaf := Bin(Nil, false, elm, false, Nil);
      InsertedTree(p, elm);
      InsertNodes(p, leaf);
      NodesLeaf(elm);
      AtPlug(mem, p, Nil, root);
      AtPlug(mem, p, leaf, root);
      Hang(parent, d, elm, p);
      if parent == null {
        PlugTop(leaf);
      } else {
        DoInsertColor(parent, elm, p, leaf);
      }
      tree := InsertFix(p, leaf);
    }
  
    /** Inserts `elm`, or returns the node that already has its key. */
    method Insert(elm: Node) returns (res: Node?)
      requires Valid() && elm !in mem
      modifies this, mem.Keys, elm
      ensures Valid()
      ensures res != null <==> !NoneAt(old(Elems(tree)), elm.key)
      ensures res != null ==> res in old(Elems(tree)) && res.key == elm.key && tree == old(tree) && mem == old(mem)
      ensures res == null ==>
              exists i :: 0 <= i <= |old(Elems(tree))|
                  && Elems(tree) == old(Elems(tree))[..i] + [elm] + old(Elems(tree))[i..]
    {
      hide Linked, LinkedPath, Nodes, PathNodes, At, Balanced, Sorted, Plug, Elems, Before, After, Head.Sync, Around,
           Go;
      var parent: Node?, tmp, d := null, root, L;
      ghost var (p, t) := (Top, tree);
      StartSearch(mem, tree, root, elm.key);
      while tmp != null
        invariant Plug(p, t) == tree && At(mem, p, t, root) && Around(p, elm.key)
        invariant tmp == RootOf(t) && parent == ParentOf(p) && (p.Down? ==> p.dir == d)
        modifies {}
        decreases t
      {
        parent := tmp;
        RootCase(t);
        ElemIn(p, t);
        if elm.key == parent.key {
          return parent;
        }
        d := if elm.key < parent.key then L else R;
        Narrow(p, t, elm.key, d);
        AtGo(mem, p, t, root, d);
        GoParts(p, t, d);
        tmp := GetLink(parent, d);
        p, t := Go(p, t, d), t.Child(d);
      }
      RootCase(t);
      Neighbours(p, elm.key);
      AroundParts(p, elm.key);
      InsertFinish(parent, d, elm, p);
      ghost var i := |Before(p)|;
      assert old(Elems(tree))[..i] == Before(p) && old(Elems(tree))[i..] == After(p);
      return null;
    }

    /** The node with key `k`, or null. */
    method Find(k: int) returns (res: Node?)
      requires Valid()
      ensures res == null <==> NoneAt(Elems(tree), k)
      ensures res != null ==> res in Elems(tree) && res.key == k
    {
      hide Linked, LinkedPath, Nodes, PathNodes, At, Balanced, Sorted, Plug, Elems, Before, After, Head.Sync, Around,
           Go;
      var tmp := root;
      ghost var (p, t) := (Top, tree);
      StartSearch(mem, tree, root, k);
      while tmp != null
        invariant Plug(p, t) == tree && At(mem, p, t, root) && Around(p, k) && tmp == RootOf(t)
        decreases t
      {
        RootCase(t);
        ElemIn(p, t);
        if k == tmp.key {
          return tmp;
        }
        var d := if k < tmp.key then L else R;
        Narrow(p, t, k, d);
        AtGo(mem, p, t, root, d);
        tmp := GetLink(tmp, d);
        p, t := Go(p, t, d), t.Child(d);
      }
      RootCase(t);
      Neighbours(p, k);
      return null;
    }

    /** The first node at or above `k`. */
    method NFind(k: int) returns (res: Node?)
      requires Valid()
      ensures IsLeastAbove(Elems(tree), k, res)
    {
      hide Linked, LinkedPath, Nodes, PathNodes, At, Balanced, Sorted, Plug, Elems, Before, After, Head.Sync, Around,
           Go;
      var tmp := root;
      res := null;
      ghost var (p, t) := (Top, tree);
      StartSearch(mem, tree, root, k);
      while tmp != null
        invariant Plug(p, t) == tree && At(mem, p, t, root) && Around(p, k) && tmp == RootOf(t)
        invariant res == First(After(p))
        decreases t
      {
        RootCase(t);
        ElemIn(p, t);
        if k == tmp.key {
          return tmp;
        }
        var d := R;
        if k < tmp.key {
          res := tmp;
          d := L;
        }
        Narrow(p, t, k, d);
        AtGo(mem, p, t, root, d);
        tmp := GetLink(tmp, d);
        p, t := Go(p, t, d), t.Child(d);
      }
      RootCase(t);
      Neighbours(p, k);
    }

    /** The last node at or below `k`. */
    method PFind(k: int) returns (res: Node?)
      requires Valid()
      ensures IsGreatestBelow(Elems(tree), k, res)
    {
      hide Linked, LinkedPath, Nodes, PathNodes, At, Balanced, Sorted, Plug, Elems, Before, After, Head.Sync, Around,
           Go;
      var tmp := root;
      res := null;
      ghost var (p, t) := (Top, tree);
      StartSearch(mem, tree, root, k);
      while tmp != null
        invariant Plug(p, t) == tree && At(mem, p, t, root) && Around(p, k) && tmp == RootOf(t)
        invariant res == Last(Before(p))
        decreases t
      {
        RootCase(t);
        ElemIn(p, t);
        if k == tmp.key {
          return tmp;
        }
        var d := L;
        if tmp.key < k {
          res := tmp;
          d := R;
        }
        Narrow(p, t, k, d);
        AtGo(mem, p, t, root, d);
        tmp := GetLink(tmp, d);
        p, t := Go(p, t, d), t.Child(d);
      }
      RootCase(t);
      Neighbours(p, k);
    }
  
    /** Unlinks `out` from a place with at most one child below it. */
    method Shortcut(out: Node, l: Node?, r: Node?, ghost p: Path<Node>, ghost t: Tree<Node>)
        returns (par: Node?, c: Node?)
      requires Sync() && At(mem, p, t, root) && Balanced(Plug(p, t)) && t.Bin? && t.elem == out
      requires l == RootOf(t.left) && r == RootOf(t.right) && (l == null || r == null)
      modifies this, mem.Keys
      ensures Sync() && mem.Keys == old(mem.Keys) && At(mem, Unlink(p, t).0, Unlink(p, t).1, root)
      ensures par == ParentOf(Unlink(p, t).0) && c == RootOf(Unlink(p, t).1)
    {
      hide Linked, LinkedPath, Nodes, PathNodes, At, Balanced, Plug, Head.Sync, Unlink;
      UnlinkBits(p, t);
      RootCase(t.left);
      RootCase(t.right);
      UnlinkShort(p, t);
      ShortcutOk(mem, p, t, root);
      UpOf(mem, p, t, root);
      c := if r == null then l else r;
      par := GetUp(out);
      SwapChild(par, out, c);
      if c != null {
        SetUp(c, par);
      }
    }

    /** Unlinks `out`, which leaves the weak-AVL conditions one rank short below `par`. */
    method TakeOut(out: Node, ghost p: Path<Node>, ghost t: Tree<Node>) returns (par: Node?, c: Node?)
      requires Sync() && At(mem, p, t, root) && Balanced(Plug(p, t)) && t.Bin? && t.elem == out
      modifies this, mem.Keys
      ensures Sync() && mem.Keys == old(mem.Keys) - {out} && At(mem, Unlink(p, t).0, Unlink(p, t).1, root)
      ensures par == ParentOf(Unlink(p, t).0) && c == RootOf(Unlink(p, t).1)
    {
      hide Linked, LinkedPath, Nodes, PathNodes, At, Balanced, Plug, Unlink, SpliceParent, MinTree;
      UnlinkPlace(mem, p, t, root);
      UpOf(mem, p, t, root);
      RootCase(t.left);
      RootCase(t.right);
      var l := GetLink(out, L);
      var r := GetLink(out, R);
      if l == null || r == null {
        par, c := Shortcut(out, l, r, p, t);
      } else {
        par, c := Splice(out, l, r, p, t);
      }
      AtForget(mem, Unlink(p, t).0, Unlink(p, t).1, root, out);
      mem := mem - {out};
    }

    /** Takes the node `out` out of the tree. */
    method Remove(out: Node) returns (res: Node)
      requires Valid() && out in mem
      modifies this, mem.Keys
      ensures Valid() && res == out && mem.Keys == old(mem.Keys) - {out}
      ensures exists i :: && 0 <= i < |old(Elems(tree))| && old(Elems(tree))[i] == out
                          && Elems(tree) == old(Elems(tree))[..i] + old(Elems(tree))[i + 1..]
    {
      hide Linked, LinkedPath, Nodes, PathNodes, At, Balanced, Sorted, Plug, Elems, Before, After, RemoveColor,
           TakenOut, Unlink, Head.Sync, Locate;
      ghost var (p, t) := Locate(Top, tree, out);
      PlugTop(tree);
      AtPlug(mem, p, t, root);
      RemovedTree(p, t);
      UnlinkPlace(mem, p, t, root);
      ghost var (q, s) := Unlink(p, t);
      ghost var (a, b) := (Before(p) + Elems(t.left), Elems(t.right) + After(p));
      var parent, child := TakeOut(out, p, t);
      AtPlug(mem, q, s, root);
      if parent != null {
        DoRemoveColor(parent, child, q, s);
      } else {
        RemoveTop(s);
      }
      tree := RemoveColor(q, s);
      assert old(Elems(tree))[..|a|] == a && old(Elems(tree))[|a| + 1..] == b;
      return out;
    }
  
    /** The first node (`d` is L) or the last node (`d` is R), null in the empty tree. */
    method MinMax(d: Dir) returns (parent: Node?)
      requires Valid()
      ensures parent == if d == L then First(Elems(tree)) else Last(Elems(tree))
    {
      hide Linked, LinkedPath, Nodes, PathNodes, At, Balanced, Sorted, Plug, Elems, Before, After, Head.Sync, Around,
           Go;
      var tmp := root;
      parent := null;
      ghost var (p, t) := (Top, tree);
      StartSearch(mem, tree, root, 0);
      while tmp != null
        invariant Plug(p, t) == tree && At(mem, p, t, root) && tmp == RootOf(t)
        invariant d == L ==> Before(p) == [] && parent == First(After(p))
        invariant d == R ==> After(p) == [] && parent == Last(Before(p))
        decreases t
      {
        RootCase(t);
        GoEnds(p, t, d);
        AtGo(mem, p, t, root, d);
        parent := tmp;
        tmp := GetLink(tmp, d);
        p, t := Go(p, t, d), t.Child(d);
      }
      RootCase(t);
      ElemsPlug(p, t);
      ElemsNil(t);
      FirstOf(Before(p), After(p));
      assert Before(p) + [] + After(p) == Before(p) + After(p);
    }

    /** Climbs from `n` until it hangs on side `d`, and returns the node it then hangs from. */
    method ClimbOut(n: Node, d: Dir, ghost p: Path<Node>, ghost t: Tree<Node>) returns (res: Node?)
      requires Sync() && At(mem, p, t, root) && t.Bin? && t.elem == n
      ensures d == L ==> res == First(After(p))
      ensures d == R ==> res == Last(Before(p))
    {
      hide Linked, LinkedPath, Nodes, PathNodes, At, Before, After, Head.Sync, Mk;
      var x := n;
      ghost var (q, u) := (p, t);
      UpOf(mem, q, u, root);
      res := GetUp(x);
      while res != null
        invariant At(mem, q, u, root) && u.Bin? && u.elem == x && res == ParentOf(q)
        invariant d == L ==> After(q) == After(p)
        invariant d == R ==> Before(q) == Before(p)
        decreases q
      {
        ParentCase(q);
        SideOfHole(mem, q, u, root);
        AfterUp(q);
        var other := GetLink(res, Opp(d));
        if x != other { return; }
        AtUp(mem, q, u, root);
        MkRoot(q, u);
        q, u, x := q.up, Mk(q.dir, u, q.near, q.elem, q.far, q.sib), res;
        UpOf(mem, q, u, root);
        res := GetUp(x);
      }
      ParentCase(q);
      AfterTop(q);
    }

    /** The in-order successor of `elm`. */
    method Next(elm: Node) returns (res: Node?)
      requires Valid() && elm in mem
      ensures IsNext(Elems(tree), elm, res)
    {
      hide Linked, LinkedPath, Nodes, PathNodes, At, Balanced, Sorted, Plug, Elems, Before, After, Head.Sync, Locate,
           MinTree, IsNext, IsPrev, First;
      ghost var (p, t) := Locate(Top, tree, elm);
      PlugTop(tree);
      AtPlug(mem, p, t, root);
      UpOf(mem, p, t, root);
      AtGo(mem, p, t, root, R);
      ElemsAt(p, t);
      NextAt(Before(p) + Elems(t.left), elm, Elems(t.right) + After(p));
      FirstOf(Elems(t.right), After(p));
      var right := GetLink(elm, R);
      RootCase(t.right);
      ElemsNil(t.right);
      if right != null {
        MinIsFirst(t.right);
        LinkedOf(mem, Go(p, t, R), t.right, root);
        var first := Descend(right, t.right, elm);
        res := first;
        FirstHead(Elems(t.right));
      } else {
        res := ClimbOut(elm, L, p, t);
      }
    }

    /** The in-order predecessor of `elm`. */
    method Prev(elm: Node) returns (res: Node?)
      requires Valid() && elm in mem
      ensures IsPrev(Elems(tree), elm, res)
    {
      hide Linked, LinkedPath, Nodes, PathNodes, At, Balanced, Sorted, Plug, Elems, Before, After, Head.Sync, Locate,
           MaxElem, IsNext, IsPrev, Last;
      ghost var (p, t) := Locate(Top, tree, elm);
      PlugTop(tree);
      AtPlug(mem, p, t, root);
      UpOf(mem, p, t, root);
      AtGo(mem, p, t, root, L);
      ElemsAt(p, t);
      NextAt(Before(p) + Elems(t.left), elm, Elems(t.right) + After(p));
      FirstOf(Before(p), Elems(t.left));
      var left := GetLink(elm, L);
      RootCase(t.left);
      ElemsNil(t.left);
      if left != null {
        MaxIsLast(t.left);
        LinkedOf(mem, Go(p, t, L), t.left, root);
        var last := DescendRight(left, t.left, elm);
        res := last;
        FirstHead(Elems(t.left));
      } else {
        res := ClimbOut(elm, R, p, t);
      }
    }

    /** Finds the rightmost node below `n`. */
    method DescendRight(n: Node, ghost t: Tree<Node>, ghost up: Node?) returns (x: Node)
      requires Sync() && Linked(mem, t, up) && t.Bin? && t.elem == n
      ensures x == MaxElem(t)
    {
      x := n;
      ghost var (s, u) := (t, up);
      while true
        invariant Linked(mem, s, u) && s.Bin? && s.elem == x && MaxElem(s) == MaxElem(t)
        decreases s
      {
        TreeLink(mem, s, u, R);
        var right := GetLink(x, R);
        if right == null { return; }
        s, u, x := s.right, x, right;
      }
    }

    /** All nodes in the order of a forward walk. */
    method ForEach() returns (xs: seq<Node>)
      requires Valid()
      ensures xs == Elems(tree)
    {
      hide Linked, LinkedPath, Nodes, PathNodes, At, Balanced, Elems, Head.Sync;
      xs := [];
      var x := MinMax(L);
      ghost var s := Elems(tree);
      while x != null
        invariant |xs| <= |s| && xs == s[..|xs|] && x == First(s[|xs|..])
        decreases |s| - |xs|
      {
        MemberOf(tree, x);
        var n := Next(x);
        NextIndex(s, |xs|, n);
        xs := xs + [x];
        x := n;
      }
    }
  }
}
