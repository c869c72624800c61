/** The rank-balanced tree as it is kept in memory: nodes with two child links, a parent
    link and two parity bits. This module says what it means for memory to spell out a
    value-level tree of module RankTree, and what each piece of link surgery does to it. */
module RbMemory {
  import opened RankTree

  class Node {
    const key: int
    var left: Node?
    var right: Node?
    var up: Node?
    var redL: bool
    var redR: bool

    constructor (key: int)
      ensures this.key == key
    {
      this.key := key;
      left, right, up, redL, redR := null, null, null, false, false;
    }

    function Get(): Cell
      reads this
    { Cell(left, right, up, redL, redR) }

  }

  // ----- memory as a value -----

  /** The contents of one node. */
  datatype Cell = Cell(left: Node?, right: Node?, up: Node?, redL: bool, redR: bool)
  {
    function Link(d: Dir): Node? { if d == L then left else right }
    function Red(d: Dir): bool { if d == L then redL else redR }
    function WithLink(d: Dir, n: Node?): Cell { if d == L then this.(left := n) else this.(right := n) }
    function WithRed(d: Dir, red: bool): Cell { if d == L then this.(redL := red) else this.(redR := red) }
  }

  type Mem = map<Node, Cell>

  function MkCell(d: Dir, near: Node?, nearRed: bool, up: Node?, farRed: bool, far: Node?): Cell {
    if d == L then Cell(near, far, up, nearRed, farRed) else Cell(far, near, up, farRed, nearRed)
  }

  function RootOf(t: Tree<Node>): Node? { if t.Nil? then null else t.elem }

  lemma RootCase(t: Tree<Node>)
    ensures RootOf(t) != null ==> t.Bin?
    ensures RootOf(t) == null ==> t == Nil
  {}

  function ParentOf(p: Path<Node>): Node? { if p.Top? then null else p.elem }

  ghost function Nodes(t: Tree<Node>): set<Node> {
    match t
    case Nil => {}
    case Bin(l, _, x, _, r) => Nodes(l) + {x} + Nodes(r)
  }

  ghost function PathNodes(p: Path<Node>): set<Node> {
    match p
    case Top => {}
    case Down(up, _, _, x, _, sib) => PathNodes(up) + {x} + Nodes(sib)
  }

  /** The memory spells out `t`, hanging below `up`, and no node stands in it twice. */
  ghost predicate Linked(m: Mem, t: Tree<Node>, up: Node?) {
    match t
    case Nil => true
    case Bin(l, ll, x, lr, r) =>
      && x in m && m[x] == Cell(RootOf(l), RootOf(r), up, ll, lr)
      && x !in Nodes(l) && x !in Nodes(r) && Nodes(l) !! Nodes(r)
      && Linked(m, l, x) && Linked(m, r, x)
  }

  ghost predicate LinkedPath(m: Mem, p: Path<Node>, hole: Node?, root: Node?) {
    match p
    case Top => root == hole
    case Down(up, d, near, x, far, sib) =>
      && x in m && m[x] == MkCell(d, hole, near, ParentOf(up), far, RootOf(sib))
      && x !in Nodes(sib) && x !in PathNodes(up) && Nodes(sib) !! PathNodes(up)
      && Linked(m, sib, x) && LinkedPath(m, up, x, root)
  }

  /** The memory below `root` is the tree `t` hanging in the path `p`. */
  ghost predicate At(m: Mem, p: Path<Node>, t: Tree<Node>, root: Node?) {
    LinkedPath(m, p, RootOf(t), root) && Linked(m, t, ParentOf(p)) && Nodes(t) !! PathNodes(p)
  }

  lemma LinkedMk(m: Mem, d: Dir, near: Tree<Node>, nearLong: bool, x: Node, farLong: bool, far: Tree<Node>, up: Node?)
    ensures Linked(m, Mk(d, near, nearLong, x, farLong, far), up) <==>
            && x !in Nodes(near) && x !in Nodes(far) && Nodes(near) !! Nodes(far)
            && Linked(m, near, x) && Linked(m, far, x)
            && x in m && m[x] == MkCell(d, RootOf(near), nearLong, up, farLong, RootOf(far))
    ensures Nodes(Mk(d, near, nearLong, x, farLong, far)) == Nodes(near) + {x} + Nodes(far)
  {}

  lemma LinkedDown(m: Mem, p: Path<Node>, hole: Node?, root: Node?)
    requires p.Down?
    ensures LinkedPath(m, p, hole, root) <==>
            && p.elem !in PathNodes(p.up) && p.elem !in Nodes(p.sib) && Nodes(p.sib) !! PathNodes(p.up)
            && LinkedPath(m, p.up, p.elem, root) && Linked(m, p.sib, p.elem)
            && p.elem in m && m[p.elem] == MkCell(p.dir, hole, p.near, ParentOf(p.up), p.far, RootOf(p.sib))
    ensures PathNodes(p) == PathNodes(p.up) + {p.elem} + Nodes(p.sib)
  {}

  lemma AtUp(m: Mem, p: Path<Node>, t: Tree<Node>, root: Node?)
    requires p.Down?
    ensures At(m, p, t, root) <==> At(m, p.up, Mk(p.dir, t, p.near, p.elem, p.far, p.sib), root)
  {
    hide Linked, LinkedPath, Nodes, PathNodes;
    LinkedMk(m, p.dir, t, p.near, p.elem, p.far, p.sib, ParentOf(p.up));
    LinkedDown(m, p, RootOf(t), root);
  }

  lemma {:induction false} AtPlug(m: Mem, p: Path<Node>, t: Tree<Node>, root: Node?)
    ensures Nodes(Plug(p, t)) == PathNodes(p) + Nodes(t)
    ensures At(m, p, t, root) <==> At(m, Top, Plug(p, t), root)
    decreases p
  {
    if p.Down? {
      AtUp(m, p, t, root);
      AtPlug(m, p.up, Mk(p.dir, t, p.near, p.elem, p.far, p.sib), root);
    }
  }

  // ----- what a change of memory leaves alone -----

  ghost predicate Same(m: Mem, m': Mem, s: set<Node>) {
    forall n :: n in s ==> n in m && n in m' && m'[n] == m[n]
  }

  lemma {:induction false} LinkedNodes(m: Mem, t: Tree<Node>, up: Node?)
    requires Linked(m, t, up)
    ensures Nodes(t) <= m.Keys
  {
    if t.Bin? {
      LinkedNodes(m, t.left, t.elem);
      LinkedNodes(m, t.right, t.elem);
    }
  }

  lemma {:induction false} LinkedFrame(m: Mem, m': Mem, t: Tree<Node>, up: Node?)
    requires Linked(m, t, up) && Same(m, m', Nodes(t))
    ensures Linked(m', t, up)
  {
    if t.Bin? {
      LinkedFrame(m, m', t.left, t.elem);
      LinkedFrame(m, m', t.right, t.elem);
    }
  }

  /** Only the parent link of the root of `t` has changed. */
  lemma LinkedReparent(m: Mem, m': Mem, t: Tree<Node>, was: Node?, up: Node?)
    requires Linked(m, t, was)
    requires t.Bin? ==> t.elem in m' && m'[t.elem] == m[t.elem].(up := up) && Same(m, m', Nodes(t) - {t.elem})
    ensures Linked(m', t, up)
  {
    if t.Bin? {
      LinkedFrame(m, m', t.left, t.elem);
      LinkedFrame(m, m', t.right, t.elem);
    }
  }

  lemma {:induction false} PathFrame(m: Mem, m': Mem, p: Path<Node>, hole: Node?, root: Node?)
    requires LinkedPath(m, p, hole, root) && Same(m, m', PathNodes(p))
    ensures LinkedPath(m', p, hole, root)
  {
    if p.Down? {
      LinkedFrame(m, m', p.sib, p.elem);
      PathFrame(m, m', p.up, p.elem, root);
    }
  }

  /** Only the link into the hole, or the root link, has changed. */
  lemma PathRehole(m: Mem, m': Mem, p: Path<Node>, hole: Node?, hole': Node?, root: Node?, root': Node?)
    requires LinkedPath(m, p, hole, root)
    requires p.Top? ==> root' == hole'
    requires p.Down? ==> && root' == root && p.elem in m' && m'[p.elem] == m[p.elem].WithLink(p.dir, hole')
                         && Same(m, m', PathNodes(p) - {p.elem})
    ensures LinkedPath(m', p, hole', root')
  {
    if p.Down? {
      LinkedFrame(m, m', p.sib, p.elem);
      PathFrame(m, m', p.up, p.elem, root);
    }
  }

  /** Memory outside `s` is as it was. */
  ghost predicate Only(m: Mem, m': Mem, s: set<Node?>) {
    m'.Keys == m.Keys && forall n: Node :: n in m && n !in s ==> m'[n] == m[n]
  }

  lemma LinkedOnly(m: Mem, m': Mem, s: set<Node?>, t: Tree<Node>, up: Node?)
    requires Linked(m, t, up) && Only(m, m', s) && forall n: Node :: n in Nodes(t) ==> n !in s
    ensures Linked(m', t, up)
  {
    hide Linked, Nodes;
    LinkedNodes(m, t, up);
    LinkedFrame(m, m', t, up);
  }

  lemma PathOnly(m: Mem, m': Mem, s: set<Node?>, p: Path<Node>, hole: Node?, root: Node?)
    requires LinkedPath(m, p, hole, root) && Only(m, m', s) && forall n: Node :: n in PathNodes(p) ==> n !in s
    ensures LinkedPath(m', p, hole, root)
  {
    hide Linked, LinkedPath, PathNodes;
    PathInMem(m, p, hole, root);
    PathFrame(m, m', p, hole, root);
  }

  /** The subtrees and nodes a rotation works on do not overlap. */
  ghost predicate Scattered(parent: Node, child: Node, up: Path<Node>, outer: Tree<Node>, mid: Tree<Node>,
                            sib: Tree<Node>) {
    && parent != child
    && parent !in PathNodes(up) && parent !in Nodes(outer) && parent !in Nodes(mid) && parent !in Nodes(sib)
    && child !in PathNodes(up) && child !in Nodes(outer) && child !in Nodes(mid) && child !in Nodes(sib)
    && PathNodes(up) !! Nodes(outer) && PathNodes(up) !! Nodes(mid) && PathNodes(up) !! Nodes(sib)
    && Nodes(outer) !! Nodes(mid) && Nodes(outer) !! Nodes(sib) && Nodes(mid) !! Nodes(sib)
  }

  ghost predicate Pieces(m: Mem, parent: Node, child: Node, up: Path<Node>,
                         outer: Tree<Node>, mid: Tree<Node>, sib: Tree<Node>, root: Node?) {
    && Scattered(parent, child, up, outer, mid, sib) && parent in m && child in m
    && LinkedPath(m, up, parent, root) && Linked(m, outer, child) && Linked(m, mid, child) && Linked(m, sib, parent)
  }

  lemma PathLink(m: Mem, p: Path<Node>, hole: Node?, root: Node?)
    requires LinkedPath(m, p, hole, root) && p.Down?
    ensures p.elem in PathNodes(p) && p.elem in m
    ensures m[p.elem].Link(p.dir) == hole && m[p.elem].Link(Opp(p.dir)) == RootOf(p.sib)
    ensures m[p.elem].Red(p.dir) == p.near && m[p.elem].Red(Opp(p.dir)) == p.far && m[p.elem].up == ParentOf(p.up)
    ensures p.sib.Bin? ==> p.sib.elem in Nodes(p.sib) && p.sib.elem in PathNodes(p)
  {}

  lemma TreeLink(m: Mem, t: Tree<Node>, up: Node?, d: Dir)
    requires Linked(m, t, up) && t.Bin?
    ensures t.elem in Nodes(t) && t.elem in m && m[t.elem].up == up
    ensures m[t.elem].Link(d) == RootOf(t.Child(d)) && m[t.elem].Red(d) == t.Long(d)
    ensures Linked(m, t.Child(d), t.elem) && Nodes(t.Child(d)) <= Nodes(t)
    ensures t.elem !in Nodes(t.Child(d)) && Nodes(t.Child(d)) !! Nodes(t.Child(Opp(d)))
    ensures Nodes(t) == Nodes(t.Child(d)) + {t.elem} + Nodes(t.Child(Opp(d)))
  {}

  lemma RootIn(m: Mem, t: Tree<Node>, up: Node?)
    requires Linked(m, t, up)
    ensures t.Bin? ==> t.elem in Nodes(t) && t.elem in m
  {}

  /** The memory after `child` has been rotated above `parent` and hung from the grandparent. */
  ghost predicate Lifted(m: Mem, m': Mem, parent: Node, child: Node, up: Path<Node>, mid: Tree<Node>, root: Node?,
                         root': Node?) {
    && Only(m, m', {parent, child, RootOf(mid), ParentOf(up)})
    && (mid.Bin? ==> mid.elem in m && mid.elem in m' && m'[mid.elem] == m[mid.elem].(up := parent))
    && (up.Top? ==> root' == child)
    && (up.Down? ==> && root' == root && up.elem in m && up.elem in m'
                     && m'[up.elem] == m[up.elem].WithLink(up.dir, child))
  }

  lemma LiftTrees(m: Mem, m': Mem, parent: Node, child: Node, up: Path<Node>,
                  outer: Tree<Node>, mid: Tree<Node>, sib: Tree<Node>, root: Node?, root': Node?)
    requires Pieces(m, parent, child, up, outer, mid, sib, root)
    requires Lifted(m, m', parent, child, up, mid, root, root')
    ensures Linked(m', outer, child) && Linked(m', mid, parent) && Linked(m', sib, parent)
  {
    hide Linked, LinkedPath, Nodes, PathNodes;
    RootIn(m, mid, child);
    if up.Down? { PathLink(m, up, parent, root); }
    var touched := {parent, child, RootOf(mid), ParentOf(up)};
    LinkedOnly(m, m', touched, outer, child);
    LinkedOnly(m, m', touched, sib, parent);
    LinkedNodes(m, mid, child);
    LinkedReparent(m, m', mid, child, parent);
  }

  lemma LiftPath(m: Mem, m': Mem, parent: Node, child: Node, up: Path<Node>,
                 outer: Tree<Node>, mid: Tree<Node>, sib: Tree<Node>, root: Node?, root': Node?)
    requires Pieces(m, parent, child, up, outer, mid, sib, root)
    requires Lifted(m, m', parent, child, up, mid, root, root')
    ensures LinkedPath(m', up, child, root')
  {
    hide Linked, LinkedPath, Nodes, PathNodes;
    RootIn(m, mid, child);
    if up.Down? { PathLink(m, up, parent, root); }
    PathInMem(m, up, parent, root);
    PathRehole(m, m', up, parent, child, root, root');
  }

  /** Once `child` stands above `parent` the memory spells out the rotated tree. */
  lemma LiftOk(m: Mem, m': Mem, parent: Node, child: Node, d: Dir, up: Path<Node>,
               outer: Tree<Node>, mid: Tree<Node>, sib: Tree<Node>, root: Node?, root': Node?,
               cn: bool, cf: bool, pn: bool, pf: bool)
    requires Pieces(m, parent, child, up, outer, mid, sib, root)
    requires Lifted(m, m', parent, child, up, mid, root, root')
    requires m'[parent] == MkCell(d, RootOf(mid), pn, child, pf, RootOf(sib))
    requires m'[child] == MkCell(d, RootOf(outer), cn, ParentOf(up), cf, parent)
    ensures At(m', up, Mk(d, outer, cn, child, cf, Mk(d, mid, pn, parent, pf, sib)), root')
  {
    LiftTrees(m, m', parent, child, up, outer, mid, sib, root, root');
    LiftPath(m, m', parent, child, up, outer, mid, sib, root, root');
    AtLifted(m', parent, child, d, up, outer, mid, sib, root', cn, cf, pn, pf);
  }

  lemma AtLifted(m: Mem, parent: Node, child: Node, d: Dir, up: Path<Node>,
                 outer: Tree<Node>, mid: Tree<Node>, sib: Tree<Node>, root: Node?, cn: bool, cf: bool, pn: bool,
                     pf: bool)
    requires Scattered(parent, child, up, outer, mid, sib) && parent in m && child in m
    requires LinkedPath(m, up, child, root) && Linked(m, outer, child) && Linked(m, mid, parent)
             && Linked(m, sib, parent)
    requires m[parent] == MkCell(d, RootOf(mid), pn, child, pf, RootOf(sib))
    requires m[child] == MkCell(d, RootOf(outer), cn, ParentOf(up), cf, parent)
    ensures At(m, up, Mk(d, outer, cn, child, cf, Mk(d, mid, pn, parent, pf, sib)), root)
  {
    hide Linked, LinkedPath, Nodes, PathNodes;
    var low := Mk(d, mid, pn, parent, pf, sib);
    LinkedMk(m, d, mid, pn, parent, pf, sib, child);
    assert child !in Nodes(low) && Nodes(low) !! Nodes(outer) && Nodes(low) !! PathNodes(up);
    LinkedMk(m, d, outer, cn, child, cf, low, ParentOf(up));
  }

  lemma {:induction false} PathInMem(m: Mem, p: Path<Node>, hole: Node?, root: Node?)
    requires LinkedPath(m, p, hole, root)
    ensures PathNodes(p) <= m.Keys
  {
    if p.Down? {
      LinkedNodes(m, p.sib, p.elem);
      PathInMem(m, p.up, p.elem, root);
    }
  }

  // ----- rotation on memory -----

  ghost predicate RotateReady(m: Mem, elm: Node, tmp: Node, d: Dir) {
    && elm in m && tmp in m && elm != tmp
    && (m[tmp].Link(d) != null ==> m[tmp].Link(d) in m && m[tmp].Link(d) != elm && m[tmp].Link(d) != tmp)
  }

  ghost function RotateMem(m: Mem, elm: Node, tmp: Node, d: Dir): (m': Mem)
    requires RotateReady(m, elm, tmp, d)
    ensures m'.Keys == m.Keys
  {
    var mid := m[tmp].Link(d);
    var m1 := m[elm := m[elm].WithLink(Opp(d), mid)];
    var m2 := if mid == null then m1 else m1[mid := m1[mid].(up := elm)];
    var m3 := m2[tmp := m2[tmp].WithLink(d, elm)];
    m3[elm := m3[elm].(up := tmp)]
  }

  lemma RotateMemCells(m: Mem, elm: Node, tmp: Node, d: Dir)
    requires RotateReady(m, elm, tmp, d)
    ensures Only(m, RotateMem(m, elm, tmp, d), {elm, tmp, m[tmp].Link(d)})
    ensures RotateMem(m, elm, tmp, d)[elm] == m[elm].WithLink(Opp(d), m[tmp].Link(d)).(up := tmp)
    ensures RotateMem(m, elm, tmp, d)[tmp] == m[tmp].WithLink(d, elm)
    ensures var mid := m[tmp].Link(d); mid != null ==> RotateMem(m, elm, tmp, d)[mid] == m[mid].(up := elm)
  {}

  function SideOf(c: Cell, out: Node?): Dir { if out == c.left then L else R }

  ghost function LiftMem(m: Mem, gpar: Node?, parent: Node, child: Node, d: Dir, clear: bool): Mem
    requires RotateReady(m, parent, child, Opp(d)) && (gpar != null ==> gpar in m)
  {
    var m1 := RotateMem(m, parent, child, Opp(d));
    var c := m1[child];
    var m2 := m1[child := c.(up := gpar, redL := c.redL && !clear, redR := c.redR && !clear)];
    if gpar == null then m2 else m2[gpar := m2[gpar].WithLink(SideOf(m2[gpar], parent), child)]
  }

  lemma LiftMemCells(m: Mem, parent: Node, child: Node, d: Dir, clear: bool, up: Path<Node>,
                     outer: Tree<Node>, mid: Tree<Node>, sib: Tree<Node>, root: Node?, root': Node?)
    requires Pieces(m, parent, child, up, outer, mid, sib, root)
    requires m[parent].Link(Opp(d)) == RootOf(sib)
    requires m[child].Link(d) == RootOf(outer) && m[child].Link(Opp(d)) == RootOf(mid)
    requires root' == if up.Top? then child else root
    ensures RotateReady(m, parent, child, Opp(d)) && (up.Down? ==> up.elem in m)
    ensures Lifted(m, LiftMem(m, ParentOf(up), parent, child, d, clear), parent, child, up, mid, root, root')
    ensures var m' := LiftMem(m, ParentOf(up), parent, child, d, clear);
            && m'[parent] == MkCell(d, RootOf(mid), m[parent].Red(d), child, m[parent].Red(Opp(d)), RootOf(sib))
            && m'[child] == MkCell(d, RootOf(outer), m[child].Red(d) && !clear, ParentOf(up),
                 m[child].Red(Opp(d)) && !clear, parent)
  {
    hide Linked, LinkedPath, Nodes, PathNodes, RotateMem;
    RootIn(m, mid, child);
    if up.Down? {
      PathLink(m, up, parent, root);
    }
    assert RotateReady(m, parent, child, Opp(d));
    RotateMemCells(m, parent, child, Opp(d));
  }

  /** What lifting does to the tree the memory spells out. */
  lemma LiftMemOk(m: Mem, parent: Node, child: Node, d: Dir, clear: bool, up: Path<Node>,
                  outer: Tree<Node>, mid: Tree<Node>, sib: Tree<Node>, root: Node?)
    requires Pieces(m, parent, child, up, outer, mid, sib, root)
    requires m[parent].Link(Opp(d)) == RootOf(sib)
    requires m[child].Link(d) == RootOf(outer) && m[child].Link(Opp(d)) == RootOf(mid)
    ensures RotateReady(m, parent, child, Opp(d)) && (ParentOf(up) != null ==> ParentOf(up) in m)
    ensures LiftMem(m, ParentOf(up), parent, child, d, clear).Keys == m.Keys
    ensures At(LiftMem(m, ParentOf(up), parent, child, d, clear), up,
               Mk(d, outer, m[child].Red(d) && !clear, child, m[child].Red(Opp(d)) && !clear,
                  Mk(d, mid, m[parent].Red(d), parent, m[parent].Red(Opp(d)), sib)), if up.Top? then child else root)
  {
    hide Linked, LinkedPath, Nodes, PathNodes, LiftMem, At;
    var root' := if up.Top? then child else root;
    LiftMemCells(m, parent, child, d, clear, up, outer, mid, sib, root, root');
    LiftOk(m, LiftMem(m, ParentOf(up), parent, child, d, clear), parent, child, d, up, outer, mid, sib, root, root',
           m[child].Red(d) && !clear, m[child].Red(Opp(d)) && !clear, m[parent].Red(d), m[parent].Red(Opp(d)));
  }

  // ----- getting ready to lift -----

  /** `m'` differs from `m` only in the bits of the listed nodes. */
  ghost predicate Recolored(m: Mem, m': Mem, a: Node, b: Node) {
    && Only(m, m', {a, b}) && a in m && b in m
    && m'[a].left == m[a].left && m'[a].right == m[a].right && m'[a].up == m[a].up
    && m'[b].left == m[b].left && m'[b].right == m[b].right && m'[b].up == m[b].up
  }

  lemma AtScattered(m: Mem, p: Path<Node>, t: Tree<Node>, root: Node?, e: Dir)
    requires At(m, p, t, root) && p.Down? && t.Bin?
    ensures Scattered(p.elem, t.elem, p.up, t.Child(e), t.Child(Opp(e)), p.sib)
    ensures p.elem in m && t.elem in m
    ensures LinkedPath(m, p.up, p.elem, root) && Linked(m, p.sib, p.elem)
    ensures Linked(m, t.Child(e), t.elem) && Linked(m, t.Child(Opp(e)), t.elem)
  {
    hide Linked, LinkedPath, Nodes, PathNodes;
    LinkedDown(m, p, RootOf(t), root);
    TreeLink(m, t, p.elem, e);
    TreeLink(m, t, p.elem, Opp(e));
  }

  lemma SinglePieces(m: Mem, m': Mem, p: Path<Node>, t: Tree<Node>, root: Node?)
    requires At(m, p, t, root) && p.Down? && t.Bin? && Recolored(m, m', p.elem, t.elem)
    ensures var e := p.dir;
            && Pieces(m', p.elem, t.elem, p.up, t.Child(e), t.Child(Opp(e)), p.sib, root)
            && m'[p.elem].Link(Opp(e)) == RootOf(p.sib)
            && m'[t.elem].Link(e) == RootOf(t.Child(e)) && m'[t.elem].Link(Opp(e)) == RootOf(t.Child(Opp(e)))
  {
    hide Linked, LinkedPath, Nodes, PathNodes;
    var e := p.dir;
    AtScattered(m, p, t, root, e);
    PathLink(m, p, t.elem, root);
    TreeLink(m, t, p.elem, e);
    TreeLink(m, t, p.elem, Opp(e));
    var s := {p.elem, t.elem};
    LinkedOnly(m, m', s, t.Child(e), t.elem);
    LinkedOnly(m, m', s, t.Child(Opp(e)), t.elem);
    LinkedOnly(m, m', s, p.sib, p.elem);
    PathOnly(m, m', s, p.up, p.elem, root);
  }

  /** The memory after the inner half of a double rotation: the root of `t` has sunk below its child
      towards the parent, and bits of the three nodes may have changed. */
  ghost predicate Sunk(m: Mem, m': Mem, p: Path<Node>, t: Tree<Node>, ln: bool, lf: bool)
    requires p.Down? && t.Bin? && t.Child(Opp(p.dir)).Bin?
  {
    var (e, parent, low, c) := (p.dir, p.elem, t.elem, t.Child(Opp(p.dir)));
    var (top, x) := (c.elem, c.Child(e));
    && parent in m && low in m && top in m
    && Only(m, m', {parent, low, top, RootOf(x)})
    && m'[parent].left == m[parent].left && m'[parent].right == m[parent].right
    && m'[low] == MkCell(e, RootOf(t.Child(e)), ln, top, lf, RootOf(x))
    && m'[top].Link(e) == low && m'[top].Link(Opp(e)) == RootOf(c.Child(Opp(e)))
    && (x.Bin? ==> x.elem in m && m'[x.elem] == m[x.elem].(up := low))
  }

  lemma DoubleScattered(m: Mem, p: Path<Node>, t: Tree<Node>, root: Node?, ln: bool, lf: bool)
    requires At(m, p, t, root) && p.Down? && t.Bin? && t.Child(Opp(p.dir)).Bin?
    ensures var (e, c) := (p.dir, t.Child(Opp(p.dir)));
            && Scattered(p.elem, c.elem, p.up, Mk(e, t.Child(e), ln, t.elem, lf, c.Child(e)), c.Child(Opp(e)), p.sib)
            && t.elem !in Nodes(t.Child(e)) && t.elem !in Nodes(c.Child(e)) && Nodes(t.Child(e)) !! Nodes(c.Child(e))
            && Nodes(Mk(e, t.Child(e), ln, t.elem, lf, c.Child(e))) == Nodes(t.Child(e)) + {t.elem} + Nodes(c.Child(e))
            && c.elem in m && Linked(m, c.Child(e), c.elem) && Linked(m, c.Child(Opp(e)), c.elem)
  {
    hide Linked, LinkedPath, Nodes, PathNodes;
    var (e, c) := (p.dir, t.Child(Opp(p.dir)));
    AtScattered(m, p, t, root, e);
    TreeLink(m, c, t.elem, e);
    TreeLink(m, c, t.elem, Opp(e));
    LinkedMk(m, e, t.Child(e), ln, t.elem, lf, c.Child(e), c.elem);
  }

  lemma DoublePieces(m: Mem, m': Mem, p: Path<Node>, t: Tree<Node>, root: Node?, ln: bool, lf: bool)
    requires At(m, p, t, root) && p.Down? && t.Bin? && t.Child(Opp(p.dir)).Bin? && Sunk(m, m', p, t, ln, lf)
    ensures var (e, c) := (p.dir, t.Child(Opp(p.dir)));
            && Pieces(m', p.elem, c.elem, p.up, Mk(e, t.Child(e), ln, t.elem, lf, c.Child(e)), c.Child(Opp(e)), p.sib,
                 root)
            && m'[p.elem].Link(Opp(e)) == RootOf(p.sib)
            && m'[c.elem].Link(e) == t.elem && m'[c.elem].Link(Opp(e)) == RootOf(c.Child(Opp(e)))
  {
    hide Linked, LinkedPath, Nodes, PathNodes;
    var (e, c) := (p.dir, t.Child(Opp(p.dir)));
    var x := c.Child(e);
    AtScattered(m, p, t, root, e);
    DoubleScattered(m, p, t, root, ln, lf);
    PathLink(m, p, t.elem, root);
    RootIn(m, x, c.elem);
    var s := {p.elem, t.elem, c.elem, RootOf(x)};
    LinkedOnly(m, m', s, t.Child(e), t.elem);
    LinkedOnly(m, m', s, c.Child(Opp(e)), c.elem);
    LinkedOnly(m, m', s, p.sib, p.elem);
    PathOnly(m, m', s, p.up, p.elem, root);
    LinkedNodes(m, x, c.elem);
    LinkedReparent(m, m', x, c.elem, t.elem);
    LinkedMk(m', e, t.Child(e), ln, t.elem, lf, x, c.elem);
  }

  function Flip(m: Mem, x: Node, d: Dir): (m': Mem)
    requires x in m
    ensures m'.Keys == m.Keys
  {
    m[x := m[x].WithRed(d, !m[x].Red(d))]
  }

  ghost function SinkInsertMem(m: Mem, parent: Node, elm: Node, child: Node, d: Dir): Mem
    requires parent in m && parent != elm && parent != child && RotateReady(m, elm, child, d)
  {
    var m1 := RotateMem(m, elm, child, d);
    var m2 := if m1[child].Red(Opp(d)) then Flip(m1, parent, d) else m1;
    var m3 := Flip(m2, elm, d);
    if m3[child].Red(d) then Flip(m3, elm, Opp(d)) else m3
  }

  lemma SinkInsertMemCells(m: Mem, parent: Node, elm: Node, child: Node, d: Dir)
    requires parent in m && parent != elm && parent != child && RotateReady(m, elm, child, d)
    requires m[child].Link(d) != parent
    ensures var (x, m') := (m[child].Link(d), SinkInsertMem(m, parent, elm, child, d));
            && Only(m, m', {parent, elm, child, x})
            && m'[parent] == m[parent].WithRed(d, m[child].Red(Opp(d)) != m[parent].Red(d))
            && m'[elm] == m[elm].WithLink(Opp(d), x).(up := child).WithRed(d, !m[elm].Red(d)).WithRed(Opp(d),
                 m[child].Red(d) != m[elm].Red(Opp(d)))
            && m'[child] == m[child].WithLink(d, elm)
            && (x != null ==> m'[x] == m[x].(up := elm))
  {
    hide RotateMem;
    RotateMemCells(m, elm, child, d);
  }

  /** The parent word of `x` without its bits. */
  function Bare(m: Mem, x: Node): (m': Mem)
    requires x in m
    ensures m'.Keys == m.Keys
  {
    m[x := m[x].(redL := false, redR := false)]
  }

  /** A position where an insertion climb ends in a rotation. */
  ghost predicate InsertPivot(m: Mem, p: Path<Node>, t: Tree<Node>, root: Node?) {
    && At(m, p, t, root) && p.Down? && !p.near && t.Bin? && t.longL != t.longR
    && (t.Long(p.dir) ==> t.Child(Opp(p.dir)).Bin?)
  }

  lemma InsertPivotNodes(m: Mem, p: Path<Node>, t: Tree<Node>, root: Node?)
    requires InsertPivot(m, p, t, root)
    ensures p.elem in m && t.elem in m && p.elem != t.elem && m[p.elem].up == ParentOf(p.up)
    ensures m[p.elem].Red(p.dir) == p.near && m[t.elem].Red(p.dir) == t.Long(p.dir)
    ensures var c := t.Child(Opp(p.dir)); t.Long(p.dir) ==>
              && c.elem != p.elem && RotateReady(Bare(m, p.elem), t.elem, c.elem, p.dir)
              && m[c.elem].Link(p.dir) != p.elem
  {
    hide Linked, LinkedPath, Nodes, PathNodes;
    var (d, c) := (p.dir, t.Child(Opp(p.dir)));
    AtScattered(m, p, t, root, d);
    PathLink(m, p, t.elem, root);
    TreeLink(m, t, p.elem, d);
    TreeLink(m, t, p.elem, Opp(d));
    if t.Long(d) {
      TreeLink(m, c, t.elem, d);
      RootIn(m, c.Child(d), c.elem);
    }
  }

  lemma InsertSunk(m: Mem, p: Path<Node>, t: Tree<Node>, root: Node?)
    requires InsertPivot(m, p, t, root) && t.Long(p.dir)
    requires RotateReady(Bare(m, p.elem), t.elem, t.Child(Opp(p.dir)).elem, p.dir) && p.elem != t.elem
             && p.elem != t.Child(Opp(p.dir)).elem
    ensures var (d, c) := (p.dir, t.Child(Opp(p.dir)));
            var m2 := SinkInsertMem(Bare(m, p.elem), p.elem, t.elem, c.elem, d);
            && Sunk(m, m2, p, t, false, c.Long(d))
            && m2[p.elem].Red(d) == c.Long(Opp(d)) && !m2[p.elem].Red(Opp(d))
  {
    hide Linked, LinkedPath, Nodes, PathNodes, SinkInsertMem;
    var (d, c) := (p.dir, t.Child(Opp(p.dir)));
    InsertPivotNodes(m, p, t, root);
    PathLink(m, p, t.elem, root);
    TreeLink(m, t, p.elem, d);
    TreeLink(m, t, p.elem, Opp(d));
    TreeLink(m, c, t.elem, d);
    TreeLink(m, c, t.elem, Opp(d));
    RootIn(m, c.Child(d), c.elem);
    SinkInsertMemCells(Bare(m, p.elem), p.elem, t.elem, c.elem, d);
  }

  /** The path with one bit of its lowest node flipped. */
  function FlipBit(p: Path<Node>, side: Dir): Path<Node>
    requires p.Down?
  {
    if side == p.dir then p.(near := !p.near) else p.(far := !p.far)
  }

  lemma FlipPath(m: Mem, p: Path<Node>, t: Tree<Node>, root: Node?, side: Dir)
    requires At(m, p, t, root) && p.Down?
    ensures p.elem in m && At(Flip(m, p.elem, side), FlipBit(p, side), t, root)
  {
    hide Linked, LinkedPath, Nodes, PathNodes;
    PathLink(m, p, RootOf(t), root);
    LinkedDown(m, p, RootOf(t), root);
    var (m', q) := (Flip(m, p.elem, side), FlipBit(p, side));
    LinkedOnly(m, m', {p.elem}, t, p.elem);
    LinkedOnly(m, m', {p.elem}, p.sib, p.elem);
    PathOnly(m, m', {p.elem}, p.up, p.elem, root);
    LinkedDown(m', q, RootOf(t), root);
  }

  /** Which side of its parent a node hangs on is seen by comparing one link. */
  lemma SideOfHole(m: Mem, p: Path<Node>, t: Tree<Node>, root: Node?)
    requires At(m, p, t, root) && p.Down?
    ensures p.elem in m && m[p.elem].up == ParentOf(p.up)
    ensures m[p.elem].Red(p.dir) == p.near && m[p.elem].Red(Opp(p.dir)) == p.far
    ensures m[p.elem].Link(Opp(p.dir)) == RootOf(p.sib) && m[p.elem].Link(p.dir) == RootOf(t)
    ensures t.Bin? || p.sib.Bin? ==> p.dir == if m[p.elem].right == RootOf(t) then R else L
    ensures t.Bin? ==> t.elem in m && m[t.elem].up == p.elem && (m[p.elem].left == t.elem <==> p.dir == L)
    ensures p.up.Down? ==> p.up.elem in m
  {
    hide Linked, LinkedPath, Nodes, PathNodes;
    PathLink(m, p, RootOf(t), root);
    if t.Bin? { TreeLink(m, t, p.elem, L); }
    LinkedDown(m, p, RootOf(t), root);
    if p.up.Down? { PathLink(m, p.up, p.elem, root); }
  }

  /** The climb ends by shortening the edge into the hole. */
  lemma ShortenEdge(m: Mem, p: Path<Node>, t: Tree<Node>, root: Node?)
    requires Grown(p, t) && p.Down? && p.near && At(m, p.(near := false), t, root)
    ensures At(m, Top, InsertFix(p, t), root)
  {
    AtPlug(m, p.(near := false), t, root);
  }

  lemma InsertAtPivot(m: Mem, p: Path<Node>, q: Path<Node>, t: Tree<Node>, root: Node?)
    requires q.Down? && !q.near && q.far && Grown(q, t) && p == q.(far := false) && At(m, p, t, root)
    ensures InsertPivot(m, p, t, root)
    ensures InsertFix(q, t) == Plug(p.up, InsertRotate(p.dir, t, p.elem, p.sib))
  {
    GrownSteps(q, t);
  }

  lemma MkParts(p: Path<Node>, t: Tree<Node>)
    requires p.Down? && !p.near && p.far
    ensures var b := Mk(p.dir, t, false, p.elem, true, p.sib);
            && b.Bin? && b.elem == p.elem && b.longL != b.longR
            && RootOf(if b.longL then b.right else b.left) == RootOf(t)
  {}

  // ----- removal on memory -----

  function FlipIf(m: Mem, x: Node, d: Dir, b: bool): (m': Mem)
    requires x in m
    ensures m'.Keys == m.Keys
  {
    if b then Flip(m, x, d) else m
  }

  function BothRed(m: Mem, x: Node): (m': Mem)
    requires x in m
    ensures m'.Keys == m.Keys
  {
    m[x := m[x].(redL := true, redR := true)]
  }

  /** Inner half of the double rotation of a removal; `e` is the side of the sibling. */
  ghost function SinkRemoveMem(m: Mem, parent: Node, sib: Node, top: Node, e: Dir): (m': Mem)
    requires parent in m && RotateReady(m, sib, top, e)
    ensures m'.Keys == m.Keys
  {
    var m1 := RotateMem(m, sib, top, e);
    var m2 := FlipIf(Flip(m1, parent, Opp(e)), parent, e, m1[top].Red(Opp(e)));
    var m3 := FlipIf(Flip(m2, sib, e), sib, Opp(e), m2[top].Red(e));
    BothRed(m3, top)
  }

  lemma SinkRemoveMemCells(m: Mem, parent: Node, sib: Node, top: Node, e: Dir)
    requires parent in m && parent != sib && parent != top && RotateReady(m, sib, top, e)
    requires m[top].Link(e) != parent
    ensures var (x, m') := (m[top].Link(e), SinkRemoveMem(m, parent, sib, top, e));
            && Only(m, m', {parent, sib, top, x})
            && m'[parent] == m[parent].WithRed(Opp(e), !m[parent].Red(Opp(e))).WithRed(e,
                 m[top].Red(Opp(e)) != m[parent].Red(e))
            && m'[sib] == m[sib].WithLink(Opp(e), x).(up := top).WithRed(e, !m[sib].Red(e)).WithRed(Opp(e),
                 m[top].Red(e) != m[sib].Red(Opp(e)))
            && m'[top] == m[top].WithLink(e, sib).(redL := true, redR := true)
            && (x != null ==> m'[x] == m[x].(up := sib))
  {
    hide RotateMem;
    RotateMemCells(m, sib, top, e);
  }

  /** The same position seen from the sibling. */
  function Turn(p: Path<Node>, t: Tree<Node>): Path<Node>
    requires p.Down?
  {
    Down(p.up, Opp(p.dir), p.far, p.elem, p.near, t)
  }

  lemma AtTurn(m: Mem, p: Path<Node>, t: Tree<Node>, root: Node?)
    requires p.Down?
    ensures At(m, p, t, root) <==> At(m, Turn(p, t), p.sib, root)
  {
    hide Linked, LinkedPath, Nodes, PathNodes, At;
    AtUp(m, p, t, root);
    AtUp(m, Turn(p, t), p.sib, root);
  }

  /** A position, seen from the sibling, where a removal climb ends in a rotation. */
  ghost predicate RemovePivot(m: Mem, p: Path<Node>, sib: Tree<Node>, root: Node?) {
    && At(m, p, sib, root) && p.Down? && !p.near && p.far && sib.Bin? && !(sib.longL && sib.longR)
    && (sib.Long(p.dir) ==> sib.Child(Opp(p.dir)).Bin?)
  }

  lemma RemovePivotNodes(m: Mem, p: Path<Node>, t: Tree<Node>, root: Node?)
    requires RemovePivot(m, p, t, root)
    ensures p.elem in m && t.elem in m && p.elem != t.elem && m[p.elem].up == ParentOf(p.up)
    ensures m[p.elem].Red(p.dir) == p.near && m[p.elem].Red(Opp(p.dir)) == p.far && m[t.elem].up == p.elem
    ensures m[t.elem].Red(p.dir) == t.Long(p.dir) && m[t.elem].Red(Opp(p.dir)) == t.Long(Opp(p.dir))
    ensures m[t.elem].Link(Opp(p.dir)) == RootOf(t.Child(Opp(p.dir)))
    ensures var c := t.Child(Opp(p.dir)); t.Long(p.dir) ==>
              && c.elem != p.elem && RotateReady(m, t.elem, c.elem, p.dir)
              && m[c.elem].Link(p.dir) != p.elem
  {
    hide Linked, LinkedPath, Nodes, PathNodes;
    var (d, c) := (p.dir, t.Child(Opp(p.dir)));
    AtScattered(m, p, t, root, d);
    PathLink(m, p, t.elem, root);
    TreeLink(m, t, p.elem, d);
    TreeLink(m, t, p.elem, Opp(d));
    if t.Long(d) {
      TreeLink(m, c, t.elem, d);
      RootIn(m, c.Child(d), c.elem);
    }
  }

  /** The removal rotation written from the side of the sibling. */
  lemma RemoveRotateTurned(e: Dir, t: Tree<Node>, x: Node, s: Tree<Node>)
    requires s.Bin? && !(s.longL && s.longR) && (s.Long(e) ==> s.Child(Opp(e)).Bin?)
    ensures var c := s.Child(Opp(e));
            RemoveRotate(Opp(e), t, x, s) ==
            if s.Long(e) then
              Mk(e, Mk(e, s.Child(e), false, s.elem, c.Long(e), c.Child(e)), true, c.elem, true,
                 Mk(e, c.Child(Opp(e)), c.Long(Opp(e)), x, false, t))
            else
              Mk(e, s.Child(e), true, s.elem, s.Long(Opp(e)), Mk(e, s.Child(Opp(e)), false, x, !s.Long(Opp(e)), t))
  {}

  lemma RootMk(d: Dir, near: Tree<Node>, nearLong: bool, x: Node, farLong: bool, far: Tree<Node>)
    ensures RootOf(Mk(d, near, nearLong, x, farLong, far)) == x
  {}

  /** The bit changes before a single removal rotation. */
  lemma RecolorSibling(m: Mem, p: Path<Node>, s: Tree<Node>, root: Node?)
    requires RemovePivot(m, p, s, root) && !s.Long(p.dir)
    ensures p.elem in m && s.elem in m
    ensures var m1 := FlipIf(m, p.elem, Opp(p.dir), s.Long(Opp(p.dir)));
            var m2 := Flip(m1, s.elem, p.dir);
            && Recolored(m, m2, p.elem, s.elem)
            && !m2[p.elem].Red(p.dir) && m2[p.elem].Red(Opp(p.dir)) == !s.Long(Opp(p.dir))
            && m2[s.elem].Red(p.dir) && m2[s.elem].Red(Opp(p.dir)) == s.Long(Opp(p.dir))
  {
    hide Linked, LinkedPath, Nodes, PathNodes;
    RemovePivotNodes(m, p, s, root);
  }

  lemma RemoveSunk(m: Mem, p: Path<Node>, t: Tree<Node>, root: Node?)
    requires RemovePivot(m, p, t, root) && t.Long(p.dir)
    requires p.elem in m && RotateReady(m, t.elem, t.Child(Opp(p.dir)).elem, p.dir)
    ensures var (e, c) := (p.dir, t.Child(Opp(p.dir)));
            var m2 := SinkRemoveMem(m, p.elem, t.elem, c.elem, e);
            && Sunk(m, m2, p, t, false, c.Long(e))
            && m2[p.elem].Red(e) == c.Long(Opp(e)) && !m2[p.elem].Red(Opp(e))
            && m2[c.elem].Red(e) && m2[c.elem].Red(Opp(e))
  {
    hide Linked, LinkedPath, Nodes, PathNodes, SinkRemoveMem;
    var (e, c) := (p.dir, t.Child(Opp(p.dir)));
    RemovePivotNodes(m, p, t, root);
    PathLink(m, p, t.elem, root);
    TreeLink(m, t, p.elem, e);
    TreeLink(m, t, p.elem, Opp(e));
    TreeLink(m, c, t.elem, e);
    TreeLink(m, c, t.elem, Opp(e));
    RootIn(m, c.Child(e), c.elem);
    SinkRemoveMemCells(m, p.elem, t.elem, c.elem, e);
  }

  /** A parent left without children becomes a leaf of rank one. */
  lemma BareLeaf(m: Mem, p: Path<Node>, root: Node?)
    requires p.Down? && p.sib.Nil? && At(m, p, Nil, root)
    ensures p.elem in m && At(Bare(m, p.elem), p.up, Bin(Nil, false, p.elem, false, Nil), root)
  {
    PathLink(m, p, null, root);
    PathOnly(m, Bare(m, p.elem), {p.elem}, p.up, p.elem, root);
  }

  /** The sibling loses the length of both its edges. */
  lemma DemoteSib(m: Mem, p: Path<Node>, t: Tree<Node>, root: Node?)
    requires At(m, p, t, root) && p.Down? && p.sib.Bin? && p.sib.longL && p.sib.longR
    ensures p.sib.elem in m
    ensures At(Flip(Flip(m, p.sib.elem, L), p.sib.elem, R), p.(sib := Demote(p.sib)), t, root)
  {
    hide Linked, LinkedPath, Nodes, PathNodes, At;
    AtTurn(m, p, t, root);
    DemoteTree(m, Turn(p, t), p.sib, root);
    var m' := Flip(Flip(m, p.sib.elem, L), p.sib.elem, R);
    AtTurn(m', p.(sib := Demote(p.sib)), t, root);
  }

  lemma DemoteTree(m: Mem, p: Path<Node>, t: Tree<Node>, root: Node?)
    requires At(m, p, t, root) && t.Bin? && t.longL && t.longR
    ensures t.elem in m && At(Flip(Flip(m, t.elem, L), t.elem, R), p, Demote(t), root)
  {
    TreeLink(m, t, ParentOf(p), L);
    TreeLink(m, t, ParentOf(p), R);
    var m' := Flip(Flip(m, t.elem, L), t.elem, R);
    LinkedOnly(m, m', {t.elem}, t.left, t.elem);
    LinkedOnly(m, m', {t.elem}, t.right, t.elem);
    PathOnly(m, m', {t.elem}, p, t.elem, root);
  }

  /** The climb ends by lengthening the edge into the hole. */
  lemma LengthenEdge(m: Mem, p: Path<Node>, t: Tree<Node>, root: Node?)
    requires Shrunk(p, t) && p.Down? && !p.near && At(m, p.(near := true), t, root)
    ensures At(m, Top, RemoveFix(p, t), root)
  {
    AtPlug(m, p.(near := true), t, root);
  }

  lemma RemoveAtPivot(m: Mem, p: Path<Node>, t: Tree<Node>, root: Node?)
    requires p.Down? && p.near && !p.far && Shrunk(p, t) && At(m, p, t, root)
    requires p.sib.Bin? && !(p.sib.longL && p.sib.longR)
    ensures RemovePivot(m, Turn(p, t), p.sib, root)
    ensures RemoveFix(p, t) == Plug(p.up, RemoveRotate(p.dir, t, p.elem, p.sib))
  {
    ShrunkSteps(p, t);
    AtTurn(m, p, t, root);
  }

  /** One step of the removal climb that leaves the hole at the parent. */
  lemma ClimbAfterRemove(m: Mem, p: Path<Node>, q: Path<Node>, t: Tree<Node>, root: Node?)
    requires p.Down? && p.near && Shrunk(p, t) && At(m, q, t, root)
    requires (p.far && q == p.(far := false))
             || (!p.far && p.sib.Bin? && p.sib.longL && p.sib.longR && q == p.(sib := Demote(p.sib)))
    ensures var b := Mk(p.dir, t, true, p.elem, false, q.sib);
            && b.Bin? && b.elem == p.elem && Shrunk(p.up, b) && RemoveFix(p, t) == RemoveFix(p.up, b)
            && At(m, p.up, b, root)
  {
    ShrunkSteps(p, t);
    AtUp(m, q, t, root);
  }

  lemma TopOfRemove(t: Tree<Node>)
    requires Shrunk(Top, t)
    ensures RemoveFix(Top, t) == t
  {}

  lemma StartRemove(m: Mem, p: Path<Node>, t: Tree<Node>, root: Node?)
    requires At(m, p, t, root) && TakenOut(p, t) && p.Down?
    ensures p.elem in m && m[p.elem].up == ParentOf(p.up)
    ensures (m[p.elem].left == RootOf(t) && m[p.elem].right == RootOf(t)) <==> (t.Nil? && p.sib.Nil?)
    ensures !(t.Nil? && p.sib.Nil?) ==> Shrunk(p, t) && RemoveColor(p, t) == RemoveFix(p, t)
    ensures t.Nil? && p.sib.Nil? ==> var leaf := Bin(Nil, false, p.elem, false, Nil);
                                     Shrunk(p.up, leaf) && RemoveColor(p, t) == RemoveFix(p.up, leaf)
    ensures p.up.Down? ==> p.up.elem in m
  {
    SideOfHole(m, p, t, root);
  }

  lemma ShrunkSide(m: Mem, p: Path<Node>, t: Tree<Node>, root: Node?)
    requires At(m, p, t, root) && Shrunk(p, t) && p.Down?
    ensures p.elem in m && m[p.elem].up == ParentOf(p.up) && (p.up.Down? ==> p.up.elem in m)
    ensures m[p.elem].Red(p.dir) == p.near && m[p.elem].Red(Opp(p.dir)) == p.far
    ensures p.dir == if m[p.elem].right == RootOf(t) then R else L
    ensures m[p.elem].Link(Opp(p.dir)) == RootOf(p.sib)
    ensures p.near && !p.far ==> p.sib.Bin?
    ensures p.sib.Bin? ==> p.sib.elem in m && m[p.sib.elem].redL == p.sib.longL && m[p.sib.elem].redR == p.sib.longR
  {
    hide LinkedPath, PathNodes;
    SideOfHole(m, p, t, root);
    LinkedDown(m, p, RootOf(t), root);
    if p.near { ShrunkSteps(p, t); }
  }

  // ----- splicing the successor -----

  ghost function MinTree(t: Tree<Node>): (r: Tree<Node>)
    requires t.Bin?
    ensures r.Bin? && r.left.Nil? && r.elem == MinElem(t) && r.elem in Nodes(t) && Nodes(r) <= Nodes(t)
  {
    if t.left.Nil? then t else MinTree(t.left)
  }

  ghost function MinParent(t: Tree<Node>): (x: Node)
    requires t.Bin? && t.left.Bin?
    ensures x in Nodes(t)
  {
    if t.left.left.Nil? then t.elem else MinParent(t.left)
  }

  /** The subtree `t` has lost its leftmost node to a place above and hangs below `up`. */
  ghost predicate SpineMem(m: Mem, m': Mem, t: Tree<Node>, up: Node?)
    requires t.Bin? && t.left.Bin?
  {
    var mt := MinTree(t);
    forall n :: n in Nodes(t) && n != mt.elem && n != RootOf(mt.right) ==>
      n in m && n in m' &&
      var c := if n == t.elem then m[n].(up := up) else m[n];
      m'[n] == if n == MinParent(t) then c.(left := RootOf(mt.right)) else c
  }

  lemma {:induction false} SpineOk(m: Mem, m': Mem, s: Path<Node>, t: Tree<Node>, was: Node?, root: Node?)
    requires t.Bin? && t.left.Bin? && Linked(m, t, was) && SpineMem(m, m', t, ParentOf(s))
    requires LinkedPath(m', s, t.elem, root) && (Nodes(t) - {MinElem(t)}) !! PathNodes(s)
    ensures var (q, mt) := Leftmost(s, t);
            mt == MinTree(t) && q.Down? && q.elem == MinParent(t) && LinkedPath(m', q, RootOf(mt.right), root) &&
            PathNodes(q) == PathNodes(s) + (Nodes(t) - Nodes(mt))
    decreases t
  {
    var (l, mt) := (t.left, MinTree(t));
    var s2 := Down(s, L, t.longL, t.elem, t.longR, t.right);
    SpineNodes(m, t, was);
    SpineRight(m, m', t, was, ParentOf(s));
    if l.left.Nil? {
    } else {
      SpineNodes(m, l, t.elem);
      SpineOk(m, m', s2, l, t.elem, root);
    }
  }

  lemma SpineNodes(m: Mem, t: Tree<Node>, was: Node?)
    requires t.Bin? && t.left.Bin? && Linked(m, t, was)
    ensures MinTree(t).elem in Nodes(t.left) && Nodes(MinTree(t)) <= Nodes(t.left)
    ensures MinTree(t).right.Bin? ==> MinTree(t).right.elem in Nodes(t.left)
    ensures t.elem !in Nodes(t.left) && Nodes(t.left) !! Nodes(t.right) && t.elem !in Nodes(t.right)
    ensures t.left.elem in m && m[t.left.elem].up == t.elem
  {}

  lemma SpineRight(m: Mem, m': Mem, t: Tree<Node>, was: Node?, up: Node?)
    requires t.Bin? && t.left.Bin? && Linked(m, t, was) && SpineMem(m, m', t, up)
    ensures Linked(m', t.right, t.elem)
  {
    SpineNodes(m, t, was);
    assert MinParent(t) !in Nodes(t.right);
    LinkedNodes(m, t.right, t.elem);
    LinkedFrame(m, m', t.right, t.elem);
  }

  /** The node that ends up above the place the successor was taken from. */
  ghost function SpliceParent(t: Tree<Node>): Node
    requires t.Bin? && t.left.Bin? && t.right.Bin?
  {
    if t.right.left.Nil? then t.right.elem else MinParent(t.right)
  }

  /** The memory after the in-order successor has taken the place of the root of `t`. */
  ghost predicate Spliced(m: Mem, m': Mem, p: Path<Node>, t: Tree<Node>, root: Node?, root': Node?)
    requires t.Bin? && t.left.Bin? && t.right.Bin?
  {
    var (l, r) := (t.left, t.right);
    var mt := MinTree(r);
    && mt.elem in m && l.elem in m && m'.Keys == m.Keys
    && m'[mt.elem] == Cell(l.elem, if r.left.Nil? then RootOf(mt.right) else r.elem, ParentOf(p), t.longL, t.longR)
    && m'[l.elem] == m[l.elem].(up := mt.elem) && Same(m, m', Nodes(l) - {l.elem})
    && (r.left.Bin? ==> SpineMem(m, m', r, mt.elem))
    && (mt.right.Bin? ==> mt.right.elem in m && m'[mt.right.elem] == m[mt.right.elem].(up := SpliceParent(t)))
    && Same(m, m', Nodes(mt.right) - {RootOf(mt.right)})
    && (p.Top? ==> root' == mt.elem)
    && (p.Down? ==> && root' == root && p.elem in m && m'[p.elem] == m[p.elem].WithLink(p.dir, mt.elem)
                    && Same(m, m', PathNodes(p) - {p.elem}))
  }

  lemma {:induction false} MinTreeLinked(m: Mem, t: Tree<Node>, up: Node?)
    requires t.Bin? && Linked(m, t, up)
    ensures var mt := MinTree(t);
            mt.elem in m && Linked(m, mt.right, mt.elem) && mt.elem !in Nodes(mt.right)
                && Nodes(mt) == {mt.elem} + Nodes(mt.right)
    ensures t.left.Bin? ==> MinParent(t) !in Nodes(MinTree(t)) && MinParent(t) in m
  {
    if t.left.Bin? { MinTreeLinked(m, t.left, t.elem); }
  }

  lemma SplicedTop(m: Mem, m': Mem, p: Path<Node>, t: Tree<Node>, root: Node?, root': Node?)
    requires At(m, p, t, root) && t.Bin? && t.left.Bin? && t.right.Bin? && Spliced(m, m', p, t, root, root')
    ensures var s := Down(p, R, t.longR, MinElem(t.right), t.longL, t.left);
            && LinkedPath(m', s, if t.right.left.Nil? then RootOf(t.right.right) else t.right.elem, root')
            && (Nodes(t.right) - {MinElem(t.right)}) !! PathNodes(s)
            && PathNodes(s) == PathNodes(p) + {MinElem(t.right)} + Nodes(t.left)
  {
    hide Linked, LinkedPath, Nodes, PathNodes, SpineMem;
    var s := Down(p, R, t.longR, MinElem(t.right), t.longL, t.left);
    TreeLink(m, t, ParentOf(p), L);
    TreeLink(m, t, ParentOf(p), R);
    RootIn(m, t.left, t.elem);
    PathRehole(m, m', p, t.elem, MinElem(t.right), root, root');
    LinkedReparent(m, m', t.left, t.elem, MinElem(t.right));
    LinkedDown(m', s, if t.right.left.Nil? then RootOf(t.right.right) else t.right.elem, root');
  }

  lemma SplicedOk(m: Mem, m': Mem, p: Path<Node>, t: Tree<Node>, root: Node?, root': Node?)
    requires At(m, p, t, root) && t.Bin? && t.left.Bin? && t.right.Bin? && Spliced(m, m', p, t, root, root')
    ensures At(m', Unlink(p, t).0, Unlink(p, t).1, root')
    ensures var (q, c) := Unlink(p, t); q.Down? && q.elem == SpliceParent(t) && c == MinTree(t.right).right
    ensures var (q, c) := Unlink(p, t); PathNodes(q) + Nodes(c) == PathNodes(p) + Nodes(t) - {t.elem}
  {
    hide LinkedPath, PathNodes;
    var r := t.right;
    var (s, mt) := (Down(p, R, t.longR, MinElem(r), t.longL, t.left), MinTree(r));
    TreeLink(m, t, ParentOf(p), L);
    TreeLink(m, t, ParentOf(p), R);
    hide Linked;
    SplicedTop(m, m', p, t, root, root');
    MinTreeLinked(m, r, t.elem);
    LinkedReparent(m, m', mt.right, mt.elem, SpliceParent(t));
    if r.left.Bin? {
      SpineOk(m, m', s, r, t.elem, root');
    }
  }

  /** The nodes a splice touches; `deep` says that the successor is not the right child itself. */
  ghost predicate SpliceReady(m: Mem, opar: Node?, out: Node, l: Node, r: Node, inn: Node, par: Node, c: Node?) {
    && out in m && l in m && r in m && inn in m && par in m && (opar != null ==> opar in m) && (c != null ==> c in m)
    && l != inn && l != r && l != par && l != c && l != opar && l != out
    && inn != c && inn != opar && inn != out && par != c && par != out && r != c && r != out
    && opar != out && opar != r && opar != par && (opar != null ==> opar != c) && c != out
    && (r == inn <==> par == inn)
  }

  ghost function SpliceBelow(m: Mem, l: Node, r: Node, inn: Node, par: Node, c: Node?): (m': Mem)
    requires l in m && r in m && inn in m && par in m
    ensures m'.Keys == m.Keys
  {
    var m1 := m[l := m[l].(up := inn)];
    var m2 := m1[inn := m1[inn].(left := l)];
    if r == inn then m2 else
      var m3 := m2[r := m2[r].(up := inn)];
      var m4 := m3[inn := m3[inn].(right := r)];
      m4[par := m4[par].(left := c)]
  }

  ghost function SpliceAbove(m: Mem, opar: Node?, out: Node, inn: Node, par: Node, c: Node?): (m': Mem)
    requires out in m && inn in m && (opar != null ==> opar in m) && (c != null ==> c in m)
    ensures m'.Keys == m.Keys
  {
    var m1 := m[inn := m[inn].(up := opar, redL := m[out].redL, redR := m[out].redR)];
    var m2 := if opar == null then m1 else m1[opar := m1[opar].WithLink(SideOf(m1[opar], out), inn)];
    if c == null then m2 else m2[c := m2[c].(up := par, redL := false, redR := false)]
  }

  ghost function SpliceMem(m: Mem, opar: Node?, out: Node, l: Node, r: Node, inn: Node, par: Node, c: Node?): Mem
    requires SpliceReady(m, opar, out, l, r, inn, par, c)
  {
    SpliceAbove(SpliceBelow(m, l, r, inn, par, c), opar, out, inn, par, c)
  }

  lemma SpliceMemCells(m: Mem, opar: Node?, out: Node, l: Node, r: Node, inn: Node, par: Node, c: Node?)
    requires SpliceReady(m, opar, out, l, r, inn, par, c)
    ensures var m' := SpliceMem(m, opar, out, l, r, inn, par, c);
            && Only(m, m', {opar, l, r, inn, par, c})
            && m'[l] == m[l].(up := inn)
            && m'[inn] == Cell(l, if r == inn then m[inn].right else r, opar, m[out].redL, m[out].redR)
            && (r != inn ==> m'[r] == (if r == par then m[r].(up := inn, left := c) else m[r].(up := inn)))
            && (r != inn && r != par ==> m'[par] == m[par].(left := c))
            && (opar != null ==> m'[opar] == m[opar].WithLink(SideOf(m[opar], out), inn))
            && (c != null ==> m'[c] == m[c].(up := par, redL := false, redR := false))
  {}

  lemma SpliceNodes(m: Mem, p: Path<Node>, t: Tree<Node>, root: Node?)
    requires At(m, p, t, root) && t.Bin? && t.left.Bin? && t.right.Bin?
    ensures var mt := MinTree(t.right);
            && SpliceReady(m, ParentOf(p), t.elem, t.left.elem, t.right.elem, mt.elem, SpliceParent(t),
                 RootOf(mt.right))
            && m[mt.elem].right == RootOf(mt.right) && m[t.elem].redL == t.longL && m[t.elem].redR == t.longR
            && Nodes(mt.right) <= Nodes(t.right) - {mt.elem} && mt.elem in Nodes(t.right)
            && (t.right.left.Bin? ==> MinParent(t.right) in Nodes(t.right) - Nodes(mt))
            && (p.Down? ==> p.elem in PathNodes(p) && SideOf(m[p.elem], t.elem) == p.dir)
            && Nodes(t.left) !! Nodes(t.right) && PathNodes(p) !! Nodes(t.left) && PathNodes(p) !! Nodes(t.right)
  {
    hide LinkedPath, PathNodes;
    TreeLink(m, t, ParentOf(p), L);
    TreeLink(m, t, ParentOf(p), R);
    MinTreeLinked(m, t.right, t.elem);
    MinTreeCell(m, t.right, t.elem);
    if p.Down? { PathLink(m, p, t.elem, root); }
  }

  lemma {:induction false} MinTreeCell(m: Mem, t: Tree<Node>, up: Node?)
    requires t.Bin? && Linked(m, t, up)
    ensures var mt := MinTree(t); mt.elem in m && m[mt.elem].right == RootOf(mt.right) && m[mt.elem].left == null
    ensures t.left.Bin? ==> m[MinElem(t)].up == MinParent(t)
  {
    if t.left.Bin? { MinTreeCell(m, t.left, t.elem); }
  }

  /** The cells a splice leaves, with the successor and the place it came from named by the tree. */
  ghost predicate SpliceCells(m: Mem, m': Mem, opar: Node?, t: Tree<Node>)
    requires t.Bin? && t.left.Bin? && t.right.Bin?
  {
    var (l, r, mt, par) := (t.left.elem, t.right.elem, MinTree(t.right), SpliceParent(t));
    var (inn, c) := (mt.elem, RootOf(mt.right));
    && l in m && r in m && inn in m && par in m && (c != null ==> c in m)
    && Only(m, m', {opar, l, r, inn, par, c})
    && m'[l] == m[l].(up := inn)
    && m'[inn] == Cell(l, if r == inn then c else r, opar, t.longL, t.longR)
    && (r != inn ==> m'[r] == (if r == par then m[r].(up := inn, left := c) else m[r].(up := inn)))
    && (r != inn && r != par ==> m'[par] == m[par].(left := c))
    && (c != null ==> m'[c] == m[c].(up := par))
  }

  lemma SpliceSpine(m: Mem, m': Mem, p: Path<Node>, t: Tree<Node>, root: Node?)
    requires At(m, p, t, root) && t.Bin? && t.left.Bin? && t.right.Bin? && t.right.left.Bin?
    requires SpliceCells(m, m', ParentOf(p), t)
    ensures SpineMem(m, m', t.right, MinElem(t.right))
  {
    TreeLink(m, t, ParentOf(p), L);
    SpliceNodes(m, p, t, root);
    RootIn(m, t.left, t.elem);
    LinkedNodes(m, t.right, t.elem);
    SpineNodes(m, t.right, t.elem);
  }

  lemma SameOnly(m: Mem, m': Mem, s: set<Node>, touched: set<Node?>)
    requires Only(m, m', touched) && s <= m.Keys && forall n: Node :: n in s ==> n !in touched
    ensures Same(m, m', s)
  {}

  /** Where the nodes that a splice touches lie. */
  lemma SplicePlaces(m: Mem, p: Path<Node>, t: Tree<Node>, root: Node?)
    requires At(m, p, t, root) && t.Bin? && t.left.Bin? && t.right.Bin?
    ensures var mt := MinTree(t.right);
            && t.left.elem in Nodes(t.left) && t.right.elem in Nodes(t.right) && mt.elem in Nodes(t.right)
            && SpliceParent(t) in Nodes(t.right) && Nodes(mt.right) <= Nodes(t.right)
            && mt.elem !in Nodes(mt.right) && SpliceParent(t) !in Nodes(mt.right) && t.right.elem !in Nodes(mt.right)
            && Nodes(t.left) !! Nodes(t.right) && PathNodes(p) !! Nodes(t.left) && PathNodes(p) !! Nodes(t.right)
            && Nodes(t.left) <= m.Keys && Nodes(t.right) <= m.Keys && PathNodes(p) <= m.Keys
            && (p.Down? ==> p.elem in PathNodes(p)) && (mt.right.Bin? ==> mt.right.elem in Nodes(mt.right))
  {
    TreeLink(m, t, ParentOf(p), L);
    TreeLink(m, t, ParentOf(p), R);
    MinTreeLinked(m, t.right, t.elem);
    LinkedNodes(m, t.left, t.elem);
    LinkedNodes(m, t.right, t.elem);
    PathInMem(m, p, t.elem, root);
  }

  lemma SpliceRest(m: Mem, m': Mem, p: Path<Node>, t: Tree<Node>, root: Node?)
    requires At(m, p, t, root) && t.Bin? && t.left.Bin? && t.right.Bin?
    requires SpliceCells(m, m', ParentOf(p), t)
    ensures var mt := MinTree(t.right);
            && Same(m, m', Nodes(t.left) - {t.left.elem})
            && Same(m, m', Nodes(mt.right) - {RootOf(mt.right)})
            && Same(m, m', PathNodes(p) - {ParentOf(p)})
  {
    hide Linked, LinkedPath, Nodes, PathNodes, At, MinTree, SpliceParent;
    SplicePlaces(m, p, t, root);
    var mt := MinTree(t.right);
    var touched := {ParentOf(p), t.left.elem, t.right.elem, mt.elem, SpliceParent(t), RootOf(mt.right)};
    assert Only(m, m', touched);
    hide Only, SpliceCells, Same;
    SameOnly(m, m', Nodes(t.left) - {t.left.elem}, touched);
    SameOnly(m, m', Nodes(mt.right) - {RootOf(mt.right)}, touched);
    SameOnly(m, m', PathNodes(p) - {ParentOf(p)}, touched);
  }

  lemma SpliceMemOk(m: Mem, p: Path<Node>, t: Tree<Node>, root: Node?)
    requires At(m, p, t, root) && t.Bin? && t.left.Bin? && t.right.Bin?
    requires var c := MinTree(t.right).right; c.Bin? ==> !c.longL && !c.longR
    ensures var mt := MinTree(t.right);
            && SpliceReady(m, ParentOf(p), t.elem, t.left.elem, t.right.elem, mt.elem, SpliceParent(t),
                           RootOf(mt.right))
            && Spliced(m, SpliceMem(m, ParentOf(p), t.elem, t.left.elem, t.right.elem, mt.elem, SpliceParent(t),
                                    RootOf(mt.right)),
                       p, t, root, if p.Top? then mt.elem else root)
  {
    hide Linked, LinkedPath, Nodes, PathNodes, SpliceMem, SpineMem, MinTree, SpliceParent, Same, Only;
    var mt := MinTree(t.right);
    SpliceNodes(m, p, t, root);
    SpliceMemCells(m, ParentOf(p), t.elem, t.left.elem, t.right.elem, mt.elem, SpliceParent(t), RootOf(mt.right));
    var m' := SpliceMem(m, ParentOf(p), t.elem, t.left.elem, t.right.elem, mt.elem, SpliceParent(t), RootOf(mt.right));
    SpliceLeaf(m, p, t, root);
    assert SpliceCells(m, m', ParentOf(p), t);
    if t.right.left.Bin? { SpliceSpine(m, m', p, t, root); }
    SpliceRest(m, m', p, t, root);
    assert m'.Keys == m.Keys by {
      OnlyKeys(m, m', {ParentOf(p), t.left.elem, t.right.elem, mt.elem, SpliceParent(t), RootOf(mt.right)});
    }
  }

  lemma OnlyKeys(m: Mem, m': Mem, s: set<Node?>)
    requires Only(m, m', s)
    ensures m'.Keys == m.Keys
  {}

  lemma SpliceLeaf(m: Mem, p: Path<Node>, t: Tree<Node>, root: Node?)
    requires At(m, p, t, root) && t.Bin? && t.left.Bin? && t.right.Bin?
    ensures var mt := MinTree(t.right);
            && (mt.right.Bin? ==>
                 mt.right.elem in m && m[mt.right.elem].redL == mt.right.longL
                     && m[mt.right.elem].redR == mt.right.longR)
            && (t.right.left.Nil? <==> t.right.elem == mt.elem)
            && (p.Down? ==> p.elem in m && PathNodes(p) - {p.elem} == PathNodes(p) - {ParentOf(p)})
            && (t.right.left.Nil? ==> mt == t.right)
  {
    TreeLink(m, t, ParentOf(p), R);
    MinTreeLinked(m, t.right, t.elem);
    var mt := MinTree(t.right);
    if mt.right.Bin? { TreeLink(m, mt.right, mt.elem, L); TreeLink(m, mt.right, mt.elem, R); }
    if p.Down? { PathLink(m, p, t.elem, root); }
  }

  /** The memory after an only child has moved up. */
  ghost function ShortcutMem(m: Mem, opar: Node?, out: Node, c: Node?): Mem
    requires out in m && (opar != null ==> opar in m) && (c != null ==> c in m)
  {
    var m1 := if opar == null then m else m[opar := m[opar].WithLink(SideOf(m[opar], out), c)];
    if c == null then m1 else m1[c := m1[c].(up := opar, redL := false, redR := false)]
  }

  lemma ShortcutNodes(m: Mem, p: Path<Node>, t: Tree<Node>, root: Node?, c: Tree<Node>)
    requires At(m, p, t, root) && t.Bin? && (t.left.Nil? || t.right.Nil?)
             && c == (if t.right.Nil? then t.left else t.right)
    ensures t.elem in m && Linked(m, c, t.elem) && Nodes(c) == Nodes(t) - {t.elem}
            && (c.Bin? ==> c.elem in m && c.elem in Nodes(c))
    ensures c.Bin? ==> m[c.elem].redL == c.longL && m[c.elem].redR == c.longR && c.elem != t.elem
    ensures p.Down? ==> p.elem in m && p.elem in PathNodes(p) && SideOf(m[p.elem], t.elem) == p.dir
    ensures Nodes(c) <= m.Keys && PathNodes(p) <= m.Keys && Nodes(c) !! PathNodes(p) && t.elem !in PathNodes(p)
  {
    TreeLink(m, t, ParentOf(p), L);
    TreeLink(m, t, ParentOf(p), R);
    if p.Down? { PathLink(m, p, t.elem, root); }
    LinkedNodes(m, c, t.elem);
    PathInMem(m, p, t.elem, root);
  }

  lemma ShortcutOk(m: Mem, p: Path<Node>, t: Tree<Node>, root: Node?)
    requires At(m, p, t, root) && t.Bin? && (t.left.Nil? || t.right.Nil?)
    requires var c := if t.right.Nil? then t.left else t.right; c.Bin? ==> !c.longL && !c.longR
    ensures var c := RootOf(Unlink(p, t).1);
            t.elem in m && (ParentOf(p) != null ==> ParentOf(p) in m) && (c != null ==> c in m)
    ensures var c := Unlink(p, t).1;
            && At(ShortcutMem(m, ParentOf(p), t.elem, RootOf(c)), p, c, if p.Top? then RootOf(c) else root)
            && PathNodes(p) + Nodes(c) == PathNodes(p) + Nodes(t) - {t.elem}
  {
    hide Linked, LinkedPath, PathNodes, Nodes;
    var c := Unlink(p, t).1;
    ShortcutNodes(m, p, t, root, c);
    var m' := ShortcutMem(m, ParentOf(p), t.elem, RootOf(c));
    PathRehole(m, m', p, t.elem, RootOf(c), root, if p.Top? then RootOf(c) else root);
    LinkedReparent(m, m', c, t.elem, ParentOf(p));
  }

  lemma {:induction false} BalancedMin(t: Tree<Node>)
    requires t.Bin? && Balanced(t)
    ensures var c := MinTree(t).right; c.Bin? ==> !c.longL && !c.longR
  {
    if t.left.Nil? { OnlyChild(t); } else { BalancedMin(t.left); }
  }

  lemma UnlinkBits(p: Path<Node>, t: Tree<Node>)
    requires t.Bin? && Balanced(Plug(p, t))
    ensures t.left.Bin? && t.right.Bin? ==> var c := MinTree(t.right).right; c.Bin? ==> !c.longL && !c.longR
    ensures t.left.Nil? || t.right.Nil? ==> var c := if t.right.Nil? then t.left else t.right; c.Bin? ==>
            !c.longL && !c.longR
  {
    BalancedPlug(p, t);
    if t.left.Bin? && t.right.Bin? { BalancedMin(t.right); } else { OnlyChild(t); }
  }

  /** Forgetting a node outside the tree. */
  lemma AtForget(m: Mem, p: Path<Node>, t: Tree<Node>, root: Node?, x: Node)
    requires At(m, p, t, root) && x !in PathNodes(p) && x !in Nodes(t)
    ensures At(m - {x}, p, t, root)
  {
    LinkedNodes(m, t, ParentOf(p));
    PathInMem(m, p, RootOf(t), root);
    LinkedFrame(m, m - {x}, t, ParentOf(p));
    PathFrame(m, m - {x}, p, RootOf(t), root);
  }

  lemma SpliceStart(m: Mem, p: Path<Node>, t: Tree<Node>, root: Node?)
    requires At(m, p, t, root) && t.Bin? && t.left.Bin? && t.right.Bin? && Balanced(Plug(p, t))
    ensures var c := MinTree(t.right).right; c.Bin? ==> !c.longL && !c.longR
    ensures Linked(m, t.right, t.elem) && t.elem in m && m[t.elem].up == ParentOf(p)
    ensures m[t.elem].redL == t.longL && m[t.elem].redR == t.longR
    ensures var mt := MinTree(t.right); mt.elem in m && m[mt.elem].right == RootOf(mt.right)
    ensures var mt := MinTree(t.right); t.right.elem == mt.elem ==> SpliceParent(t) == mt.elem
    ensures var mt := MinTree(t.right); t.right.elem != mt.elem ==> m[mt.elem].up == SpliceParent(t)
  {
    UnlinkBits(p, t);
    TreeLink(m, t, ParentOf(p), L);
    TreeLink(m, t, ParentOf(p), R);
    MinTreeCell(m, t.right, t.elem);
    SpliceLeaf(m, p, t, root);
  }

  // ----- positions and keys -----

  /** The position of node `x` in the tree below `p`. */
  ghost function Locate(p: Path<Node>, t: Tree<Node>, x: Node): (r: (Path<Node>, Tree<Node>))
    requires x in Nodes(t)
    ensures Plug(r.0, r.1) == Plug(p, t) && r.1.Bin? && r.1.elem == x
    decreases t
  {
    if x == t.elem then (p, t)
    else if x in Nodes(t.left) then Locate(Down(p, L, t.longL, t.elem, t.longR, t.right), t.left, x)
    else Locate(Down(p, R, t.longR, t.elem, t.longL, t.left), t.right, x)
  }

  /** Keys ascend strictly. */
  ghost predicate Sorted(s: seq<Node>) {
    forall i, j :: 0 <= i < j < |s| ==> s[i].key < s[j].key
  }

  ghost predicate AllBelow(s: seq<Node>, k: int) { forall n :: n in s ==> n.key < k }

  ghost predicate AllAbove(s: seq<Node>, k: int) { forall n :: n in s ==> k < n.key }

  lemma {:induction false} NodesElems(t: Tree<Node>)
    ensures Nodes(t) == set n | n in Elems(t)
  {
    if t.Bin? {
      NodesElems(t.left);
      NodesElems(t.right);
    }
  }

  lemma ElemsAt(p: Path<Node>, t: Tree<Node>)
    requires t.Bin?
    ensures Elems(Plug(p, t)) == (Before(p) + Elems(t.left)) + [t.elem] + (Elems(t.right) + After(p))
  {
    ElemsPlug(p, t);
    assert Elems(t) == Elems(t.left) + [t.elem] + Elems(t.right);
    hide Plug, Elems, Before, After;
    Regroup(Before(p), Elems(t.left), [t.elem], Elems(t.right), After(p));
  }

  lemma Regroup<X>(a: seq<X>, b: seq<X>, c: seq<X>, d: seq<X>, e: seq<X>)
    ensures a + (b + c + d) + e == (a + b) + c + (d + e)
  {}

  /** In a sorted tree what stands before a node is below it, what stands after is above it. */
  lemma SortedAt(p: Path<Node>, t: Tree<Node>)
    requires t.Bin? && Sorted(Elems(Plug(p, t)))
    ensures AllBelow(Before(p) + Elems(t.left), t.elem.key) && AllAbove(Elems(t.right) + After(p), t.elem.key)
  {
    ElemsAt(p, t);
    hide Plug, Elems, Before, After, Sorted;
    SortedSplit(Before(p) + Elems(t.left), t.elem, Elems(t.right) + After(p));
  }

  lemma SortedSplit(a: seq<Node>, x: Node, b: seq<Node>)
    ensures Sorted(a + [x] + b) <==> Sorted(a + b) && AllBelow(a, x.key) && AllAbove(b, x.key)
  {
    var s := a + [x] + b;
    if Sorted(s) {
      assert s[|a|] == x;
      forall n | n in a ensures n.key < x.key { var i :| 0 <= i < |a| && a[i] == n; assert s[i] == n; }
      forall n | n in b ensures x.key < n.key { var i :| 0 <= i < |b| && b[i] == n; assert s[|a| + 1 + i] == n; }
      forall i, j | 0 <= i < j < |a + b| ensures (a + b)[i].key < (a + b)[j].key {
        assert (a + b)[i] == s[if i < |a| then i else i + 1];
        assert (a + b)[j] == s[if j < |a| then j else j + 1];
      }
    }
    if Sorted(a + b) && AllBelow(a, x.key) && AllAbove(b, x.key) {
      forall i, j | 0 <= i < j < |s| ensures s[i].key < s[j].key {
        if i != |a| && j != |a| {
          assert s[i] == (a + b)[if i < |a| then i else i - 1];
          assert s[j] == (a + b)[if j < |a| then j else j - 1];
        } else if i == |a| {
          assert s[j] == b[j - |a| - 1];
        } else {
          assert s[i] == a[i];
        }
      }
    }
  }

  /** A fresh node hung into the empty hole. */
  lemma HangLeaf(m: Mem, p: Path<Node>, root: Node?, x: Node)
    requires At(m, p, Nil, root) && x !in PathNodes(p)
    ensures p.Down? ==> p.elem in m
    ensures var m1 := m[x := Cell(null, null, ParentOf(p), false, false)];
            var m2 := if p.Top? then m1 else m1[p.elem := m1[p.elem].WithLink(p.dir, x)];
            At(m2, p, Bin(Nil, false, x, false, Nil), if p.Top? then x else root)
  {
    if p.Down? { PathLink(m, p, null, root); }
    PathInMem(m, p, null, root);
    hide LinkedPath, PathNodes;
    var m1 := m[x := Cell(null, null, ParentOf(p), false, false)];
    var m2 := if p.Top? then m1 else m1[p.elem := m1[p.elem].WithLink(p.dir, x)];
    PathRehole(m, m2, p, null, x, root, if p.Top? then x else root);
    NodesLeaf(x);
    assert Linked(m2, Bin(Nil, false, x, false, Nil), ParentOf(p));
  }

  /** The tree with `x` hung into the hole of `p` and rebalanced. */
  lemma InsertedTree(p: Path<Node>, x: Node)
    requires Balanced(Plug(p, Nil)) && Sorted(Elems(Plug(p, Nil)))
    requires AllBelow(Before(p), x.key) && AllAbove(After(p), x.key)
    ensures var leaf := Bin(Nil, false, x, false, Nil);
            && Grown(p, leaf) && Balanced(InsertFix(p, leaf)) && Sorted(Elems(InsertFix(p, leaf)))
            && Elems(InsertFix(p, leaf)) == Before(p) + [x] + After(p)
            && Elems(Plug(p, Nil)) == Before(p) + After(p)
  {
    var leaf := Bin(Nil, false, x, false, Nil);
    BalancedPlug(p, Nil);
    assert Grown(p, leaf);
    assert Elems(leaf) == [x];
    ElemsPlug(p, leaf);
    ElemsPlug(p, Nil);
    assert Before(p) + [] + After(p) == Before(p) + After(p);
    hide Plug, Elems, Before, After, Sorted, Balanced, InsertFix;
    InsertFixBalanced(p, leaf);
    InsertFixElems(p, leaf);
    SortedSplit(Before(p), x, After(p));
  }

  lemma NodesLeaf(x: Node)
    ensures Nodes(Nil) == {} && Nodes(Bin(Nil, false, x, false, Nil)) == {x}
  {}

  lemma PlugTop(t: Tree<Node>)
    ensures Plug(Top, t) == t && (Grown(Top, t) ==> InsertFix(Top, t) == t)
  {}

  lemma SameNodes(a: Tree<Node>, b: Tree<Node>)
    requires Elems(a) == Elems(b)
    ensures Nodes(a) == Nodes(b)
  {
    NodesElems(a);
    NodesElems(b);
  }

  lemma InsertNodes(p: Path<Node>, t: Tree<Node>)
    requires Grown(p, t)
    ensures Nodes(InsertFix(p, t)) == Nodes(Plug(p, t))
  {
    InsertFixElems(p, t);
    SameNodes(InsertFix(p, t), Plug(p, t));
  }

  /** The tree without the root of `t`, rebalanced. */
  lemma RemovedTree(p: Path<Node>, t: Tree<Node>)
    requires t.Bin? && Balanced(Plug(p, t)) && Sorted(Elems(Plug(p, t)))
    ensures var (q, c) := Unlink(p, t);
            && TakenOut(q, c) && Balanced(RemoveColor(q, c)) && Sorted(Elems(RemoveColor(q, c)))
            && Elems(RemoveColor(q, c)) == (Before(p) + Elems(t.left)) + (Elems(t.right) + After(p))
            && Elems(Plug(p, t)) == (Before(p) + Elems(t.left)) + [t.elem] + (Elems(t.right) + After(p))
            && Nodes(RemoveColor(q, c)) == Nodes(Plug(q, c))
  {
    hide Plug, Elems, Before, After, Sorted, Balanced, RemoveColor, Unlink, TakenOut, Nodes;
    var (q, c) := Unlink(p, t);
    UnlinkTakenOut(p, t);
    RemoveColorOk(q, c);
    SameNodes(RemoveColor(q, c), Plug(q, c));
    UnlinkElems(p, t);
    ElemsAt(p, t);
    SortedSplit(Before(p) + Elems(t.left), t.elem, Elems(t.right) + After(p));
    assert Before(p) + Elems(t.left) + Elems(t.right) + After(p)
           == (Before(p) + Elems(t.left)) + (Elems(t.right) + After(p));
  }

  lemma RemoveTop(t: Tree<Node>)
    requires TakenOut(Top, t)
    ensures RemoveColor(Top, t) == t && Plug(Top, t) == t
  {}

  lemma UnlinkShort(p: Path<Node>, t: Tree<Node>)
    requires t.Bin? && (t.left.Nil? || t.right.Nil?)
    ensures Unlink(p, t) == (p, if t.right.Nil? then t.left else t.right)
  {}

  lemma UpOf(m: Mem, p: Path<Node>, t: Tree<Node>, root: Node?)
    requires At(m, p, t, root) && t.Bin?
    ensures t.elem in m && m[t.elem] == Cell(RootOf(t.left), RootOf(t.right), ParentOf(p), t.longL, t.longR)
  {}

  /** Where a node taken out leaves the tree. */
  lemma UnlinkPlace(m: Mem, p: Path<Node>, t: Tree<Node>, root: Node?)
    requires At(m, p, t, root) && t.Bin? && Balanced(Plug(p, t))
    ensures var (q, c) := Unlink(p, t);
            && PathNodes(q) + Nodes(c) == PathNodes(p) + Nodes(t) - {t.elem}
            && (t.left.Bin? && t.right.Bin? ==> q.Down? && q.elem == SpliceParent(t) && c == MinTree(t.right).right)
            && t.elem !in PathNodes(q) && t.elem !in Nodes(c)
  {
    hide Linked, LinkedPath, Nodes, PathNodes, At, Spliced;
    if t.left.Bin? && t.right.Bin? {
      UnlinkBits(p, t);
      SpliceMemOk(m, p, t, root);
      var mt := MinTree(t.right);
      SplicedOk(m, SpliceMem(m, ParentOf(p), t.elem, t.left.elem, t.right.elem, mt.elem, SpliceParent(t),
          RootOf(mt.right)), p, t, root, if p.Top? then mt.elem else root);
    } else {
      UnlinkBits(p, t);
      ShortcutOk(m, p, t, root);
    }
  }

  // ----- searching -----

  /** One step down to side `d`. */
  function Go(p: Path<Node>, t: Tree<Node>, d: Dir): (q: Path<Node>)
    requires t.Bin?
    ensures Plug(q, t.Child(d)) == Plug(p, t)
  {
    Down(p, d, t.Long(d), t.elem, t.Long(Opp(d)), t.Child(Opp(d)))
  }

  lemma AtGo(m: Mem, p: Path<Node>, t: Tree<Node>, root: Node?, d: Dir)
    requires At(m, p, t, root) && t.Bin?
    ensures t.elem in m && m[t.elem].Link(d) == RootOf(t.Child(d)) && At(m, Go(p, t, d), t.Child(d), root)
  {
    hide LinkedPath, PathNodes;
    TreeLink(m, t, ParentOf(p), d);
    AtUp(m, Go(p, t, d), t.Child(d), root);
  }

  /** Everything before the hole is below `k`, everything after it is above. */
  ghost predicate Around(p: Path<Node>, k: int) {
    AllBelow(Before(p), k) && AllAbove(After(p), k)
  }

  lemma Narrow(p: Path<Node>, t: Tree<Node>, k: int, d: Dir)
    requires t.Bin? && Sorted(Elems(Plug(p, t))) && Around(p, k)
    requires if d == L then k < t.elem.key else t.elem.key < k
    ensures Around(Go(p, t, d), k)
    ensures After(Go(p, t, L)) == [t.elem] + Elems(t.right) + After(p) && After(Go(p, t, R)) == After(p)
    ensures Before(Go(p, t, R)) == Before(p) + Elems(t.left) + [t.elem] && Before(Go(p, t, L)) == Before(p)
  {
    SortedAt(p, t);
  }

  function First(s: seq<Node>): Node? { if s == [] then null else s[0] }

  function Last(s: seq<Node>): Node? { if s == [] then null else s[|s| - 1] }

  /** At an empty hole the neighbours of `k` are known. */
  lemma Neighbours(p: Path<Node>, k: int)
    requires Sorted(Elems(Plug(p, Nil))) && Around(p, k)
    ensures NoneAt(Elems(Plug(p, Nil)), k)
    ensures IsLeastAbove(Elems(Plug(p, Nil)), k, First(After(p)))
    ensures IsGreatestBelow(Elems(Plug(p, Nil)), k, Last(Before(p)))
  {
    ElemsPlug(p, Nil);
    assert Elems(Plug(p, Nil)) == Before(p) + After(p);
    hide Plug, Elems, Before, After;
    SplitNeighbours(Before(p), After(p), k);
  }

  lemma SplitNeighbours(a: seq<Node>, b: seq<Node>, k: int)
    requires Sorted(a + b) && AllBelow(a, k) && AllAbove(b, k)
    ensures NoneAt(a + b, k) && IsLeastAbove(a + b, k, First(b)) && IsGreatestBelow(a + b, k, Last(a))
  {
    if b != [] {
      forall n | n in b ensures b[0].key <= n.key {
        var i :| 0 <= i < |b| && b[i] == n;
        assert (a + b)[|a|] == b[0] && (a + b)[|a| + i] == n;
      }
    }
    if a != [] {
      forall n | n in a ensures n.key <= a[|a| - 1].key {
        var i :| 0 <= i < |a| && a[i] == n;
        assert (a + b)[|a| - 1] == a[|a| - 1] && (a + b)[i] == n;
      }
    }
  }

  ghost predicate NoneAt(s: seq<Node>, k: int) { forall n :: n in s ==> n.key != k }

  /** `x` has the least key in `s` that is not below `k`. */
  ghost predicate IsLeastAbove(s: seq<Node>, k: int, x: Node?) {
    if x == null then forall n :: n in s ==> n.key < k
    else x in s && k <= x.key && forall n :: n in s && k <= n.key ==> x.key <= n.key
  }

  /** `x` has the greatest key in `s` that is not above `k`. */
  ghost predicate IsGreatestBelow(s: seq<Node>, k: int, x: Node?) {
    if x == null then forall n :: n in s ==> k < n.key
    else x in s && x.key <= k && forall n :: n in s && n.key <= k ==> n.key <= x.key
  }

  lemma ElemIn(p: Path<Node>, t: Tree<Node>)
    requires t.Bin?
    ensures t.elem in Elems(Plug(p, t))
  {
    ElemsAt(p, t);
  }

  lemma StartSearch(m: Mem, t: Tree<Node>, root: Node?, k: int)
    requires At(m, Top, t, root)
    ensures root == RootOf(t) && Plug(Top, t) == t && Around(Top, k)
    ensures After<Node>(Top) == [] && Before<Node>(Top) == []
  {}

  lemma GoParts(p: Path<Node>, t: Tree<Node>, d: Dir)
    requires t.Bin?
    ensures var q := Go(p, t, d); q.Down? && q.dir == d && q.elem == t.elem
  {}

  lemma AroundParts(p: Path<Node>, k: int)
    requires Around(p, k)
    ensures AllBelow(Before(p), k) && AllAbove(After(p), k)
  {}

  // ----- in-order steps -----

  lemma {:induction false} MinIsFirst(t: Tree<Node>)
    requires t.Bin?
    ensures Elems(t) != [] && MinTree(t).elem == Elems(t)[0]
  {
    if t.left.Bin? { MinIsFirst(t.left); }
  }

  lemma {:induction false} MaxIsLast(t: Tree<Node>)
    requires t.Bin?
    ensures Elems(t) != [] && MaxElem(t) == Elems(t)[|Elems(t)| - 1]
  {
    if t.right.Bin? { MaxIsLast(t.right); }
  }

  ghost function MaxElem(t: Tree<Node>): Node
    requires t.Bin?
  {
    if t.right.Nil? then t.elem else MaxElem(t.right)
  }

  lemma AfterUp(p: Path<Node>)
    requires p.Down?
    ensures p.dir == R ==> After(p) == After(p.up)
    ensures p.dir == L ==> First(After(p)) == p.elem
    ensures p.dir == L ==> Before(p) == Before(p.up)
    ensures p.dir == R ==> Last(Before(p)) == p.elem
  {}

  lemma ParentCase(p: Path<Node>)
    ensures ParentOf(p) != null ==> p.Down?
    ensures ParentOf(p) == null ==> p.Top?
  {}

  lemma AfterTop(p: Path<Node>)
    requires p.Top?
    ensures After(p) == [] && Before(p) == []
  {}

  lemma FirstOf(a: seq<Node>, b: seq<Node>)
    ensures First(a + b) == if a == [] then First(b) else First(a)
    ensures Last(a + b) == if b == [] then Last(a) else Last(b)
  {}

  lemma ElemsNil(t: Tree<Node>)
    ensures t.Nil? <==> Elems(t) == []
  {}

  /** `x` is the successor of `e` in `s`, null if `e` is the last element. */
  ghost predicate IsNext(s: seq<Node>, e: Node, x: Node?) {
    exists i :: 0 <= i < |s| && s[i] == e && x == First(s[i + 1..])
  }

  ghost predicate IsPrev(s: seq<Node>, e: Node, x: Node?) {
    exists i :: 0 <= i < |s| && s[i] == e && x == Last(s[..i])
  }

  lemma NextAt(a: seq<Node>, e: Node, b: seq<Node>)
    ensures IsNext(a + [e] + b, e, First(b)) && IsPrev(a + [e] + b, e, Last(a))
  {
    var s := a + [e] + b;
    assert s[|a|] == e && s[|a| + 1..] == b && s[..|a|] == a;
  }

  lemma FirstHead(s: seq<Node>)
    ensures s != [] ==> First(s) == s[0] && Last(s) == s[|s| - 1]
  {}

  lemma GoEnds(p: Path<Node>, t: Tree<Node>, d: Dir)
    requires t.Bin?
    ensures d == L ==> Before(Go(p, t, d)) == Before(p) && First(After(Go(p, t, d))) == t.elem
    ensures d == R ==> After(Go(p, t, d)) == After(p) && Last(Before(Go(p, t, d))) == t.elem
  {}

  lemma MkRoot(q: Path<Node>, u: Tree<Node>)
    requires q.Down?
    ensures var b := Mk(q.dir, u, q.near, q.elem, q.far, q.sib); b.Bin? && b.elem == q.elem
  {}

  lemma LinkedOf(m: Mem, p: Path<Node>, t: Tree<Node>, root: Node?)
    requires At(m, p, t, root)
    ensures Linked(m, t, ParentOf(p))
  {}

  lemma MemberOf(t: Tree<Node>, x: Node)
    requires x in Elems(t)
    ensures x in Nodes(t)
  {
    NodesElems(t);
  }

  lemma NextIndex(s: seq<Node>, k: nat, n: Node?)
    requires Sorted(s) && k < |s| && IsNext(s, s[k], n)
    ensures n == First(s[k + 1..])
  {
    var i :| 0 <= i < |s| && s[i] == s[k] && n == First(s[i + 1..]);
    assert i == k;
  }
}
