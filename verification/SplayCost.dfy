/** How many turns splaying takes: the Balance Theorem, by a potential that is the sum of the logarithms of
    the sizes of all subtrees. */
module SplayCost {
  import opened SplayTree

  // ----- logarithms -----

  /** The logarithm to the base 2, rounded down. */
  function Log(n: nat): nat { if n < 2 then 0 else 1 + Log(n / 2) }

  lemma {:induction false} LogGrows(a: nat, b: nat)
    requires a <= b
    ensures Log(a) <= Log(b)
  {
    if a >= 2 { LogGrows(a / 2, b / 2); }
  }

  /** Of two numbers that fit into a third, one has a smaller logarithm. */
  lemma LogHalf(a: nat, b: nat, c: nat)
    requires a + b <= c && c >= 2
    ensures Log(a) < Log(c) || Log(b) < Log(c)
  {
    var m := if a <= b then a else b;
    assert Log(c) == 1 + Log(c / 2);
    LogGrows(m, c / 2);
  }

  // ----- potential -----

  function Pot(t: Tree): nat { if t.Nil? then 0 else Log(Size(t)) + Pot(t.left) + Pot(t.right) }

  lemma JoinIs(d: Dir, a: Tree, x: Node, b: Tree)
    ensures Size(Join(d, a, x, b)) == Size(a) + 1 + Size(b)
    ensures Pot(Join(d, a, x, b)) == Log(Size(Join(d, a, x, b))) + Pot(a) + Pot(b)
  {}

  lemma ChildIs(t: Tree, d: Dir)
    requires t.Bin?
    ensures t == Join(d, Child(t, d), t.x, Child(t, Opp(d)))
  {}

  lemma JoinParts(d: Dir, a: Tree, x: Node, b: Tree)
    ensures var t := Join(d, a, x, b); t.Bin? && t.x == x && Child(t, d) == a && Child(t, Opp(d)) == b
  {}

  lemma RotatedSums(d: Dir, z: Tree, y: Node, o: Tree, x: Node, o': Tree)
    ensures var (c, b) := (Join(d, z, y, o), Join(d, o, x, o'));
            var (t, u) := (Join(d, c, x, o'), Join(d, z, y, b));
            && Size(z) < Size(c) < Size(t) == Size(u) && Size(b) == Size(t) - 1 - Size(z)
            && Pot(t) + Log(Size(b)) == Log(Size(t)) + Log(Size(c)) + Pot(z) + Pot(b)
  {
    hide Pot, Log, Size, Join;
    JoinIs(d, z, y, o);
    JoinIs(d, o, x, o');
    JoinIs(d, Join(d, z, y, o), x, o');
    JoinIs(d, z, y, Join(d, o, x, o'));
  }

  /** What a rotation does to sizes and potential. */
  lemma RotatedIs(t: Tree, d: Dir)
    requires t.Bin? && Child(t, d).Bin?
    ensures var (c, u) := (Child(t, d), Rotated(t, d));
            && u.Bin? && Child(u, d) == Child(c, d) && u.x == c.x && Size(Child(c, d)) < Size(c) < Size(t) == Size(u)
            && Size(Child(u, Opp(d))) == Size(t) - 1 - Size(Child(c, d))
            && Pot(t) + Log(Size(Child(u, Opp(d))))
               == Log(Size(t)) + Log(Size(c)) + Pot(Child(c, d)) + Pot(Child(u, Opp(d)))
  {
    hide Pot, Log, Size, Join, Child;
    var c := Child(t, d);
    var (z, o, o') := (Child(c, d), Child(c, Opp(d)), Child(t, Opp(d)));
    ChildIs(t, d);
    ChildIs(c, d);
    RotatedSums(d, z, c.x, o, t.x, o');
    JoinParts(d, z, c.x, Join(d, o, t.x, o'));
    assert Rotated(t, d) == Join(d, z, c.x, Join(d, o, t.x, o'));
  }

  // ----- the walk down, told by what is left and right of the key in the end -----

  datatype Parts = Parts(l: Tree, x: Node, r: Tree)

  /** The side to which the nodes passed go that are walked down from on side `d`. */
  function Side(p: Parts, d: Dir): Tree { if d == L then p.r else p.l }

  function Hung(p: Parts, d: Dir, x: Node, t: Tree): Parts {
    if d == L then Parts(p.l, p.x, Join(L, p.r, x, t)) else Parts(Join(R, p.l, x, t), p.x, p.r)
  }

  function Whole(t: Tree): Parts
    requires t.Bin?
  {
    Parts(t.left, t.x, t.right)
  }

  function Towards(t: Tree, k: int): Dir
    requires t.Bin?
  {
    if k < t.x.key then L else R
  }

  predicate AtOnce(t: Tree, k: int)
    requires t.Bin?
  {
    k == t.x.key || Child(t, Towards(t, k)).Nil?
  }

  predicate Twice(t: Tree, k: int)
    requires t.Bin? && !AtOnce(t, k)
  {
    Beyond(k, Child(t, Towards(t, k)).x, Towards(t, k))
  }

  /** The two trees next to the key, and how many turns it takes to part them. */
  function Split(t: Tree, k: int): (Parts, nat)
    requires t.Bin?
    decreases Size(t)
  {
    var d := Towards(t, k);
    if AtOnce(t, k) then (Whole(t), 1)
    else if !Twice(t, k) then
      var (p, n) := Split(Child(t, d), k);
      (Hung(p, d, t.x, Child(t, Opp(d))), n + 1)
    else
      var u := Rotated(t, d);
      if Child(u, d).Nil? then (Whole(u), 1)
      else
        RotatedIs(t, d);
        var (p, n) := Split(Child(u, d), k);
        (Hung(p, d, u.x, Child(u, Opp(d))), n + 1)
  }

  lemma HungIs(p: Parts, d: Dir, x: Node, t: Tree)
    ensures var q := Hung(p, d, x, t);
            && Size(q.l) + 1 + Size(q.r) == Size(p.l) + 1 + Size(p.r) + 1 + Size(t)
            && Size(Side(q, d)) == Size(Side(p, d)) + 1 + Size(t) && Side(q, Opp(d)) == Side(p, Opp(d))
            && Pot(q.l) + Pot(q.r) == Pot(p.l) + Pot(p.r) + Pot(t) + Log(Size(Side(q, d)))
            && Size(q.l) + Size(q.r) == Size(Side(q, d)) + Size(Side(q, Opp(d)))
  {
    JoinIs(d, Side(p, d), x, t);
  }

  /** The account of a walk: `bonus` is one turn less. */
  ghost predicate Paid(t: Tree, p: Parts, n: nat, bonus: bool) {
    && Size(p.l) + 1 + Size(p.r) == Size(t)
    && n + 2 * (Pot(p.l) + Pot(p.r)) + (if bonus then 1 else 0) <= 2 * Pot(t) + 3 * Log(Size(t)) + 2
  }

  /** A walk that passes few nodes on the side of its first step has a turn to spare. */
  ghost predicate Spares(t: Tree, k: int, p: Parts)
    requires t.Bin?
  {
    AtOnce(t, k) || Log(Size(Side(p, Towards(t, k)))) < Log(Size(t))
  }

  lemma PaidAtOnce(t: Tree)
    requires t.Bin?
    ensures Paid(t, Whole(t), 1, true)
  {}

  lemma PaidOnce(t: Tree, k: int, p: Parts, n: nat)
    requires t.Bin? && !AtOnce(t, k) && !Twice(t, k)
    requires var c := Child(t, Towards(t, k)); Paid(c, p, n, false) && (Spares(c, k, p) ==> Paid(c, p, n, true))
    ensures var (d, q) := (Towards(t, k), Hung(p, Towards(t, k), t.x, Child(t, Opp(Towards(t, k)))));
            Paid(t, q, n + 1, false) && (Spares(t, k, q) ==> Paid(t, q, n + 1, true))
  {
    var d := Towards(t, k);
    var (c, o) := (Child(t, d), Child(t, Opp(d)));
    var q := Hung(p, d, t.x, o);
    ChildIs(t, d);
    JoinIs(d, c, t.x, o);
    HungIs(p, d, t.x, o);
    LogGrows(Size(c), Size(t));
    LogGrows(Size(Side(q, d)), Size(t));
    assert AtOnce(c, k) || Towards(c, k) == Opp(d);
    LogHalf(Size(Side(q, d)), Size(Side(q, Opp(d))), Size(t));
    hide Log, Pot, Size, Hung;
  }

  lemma PaidTwice(t: Tree, k: int, p: Parts, n: nat)
    requires t.Bin? && !AtOnce(t, k) && Twice(t, k)
    requires var u := Rotated(t, Towards(t, k)); Child(u, Towards(t, k)).Bin?
    requires Paid(Child(Rotated(t, Towards(t, k)), Towards(t, k)), p, n, false)
    ensures var (d, u) := (Towards(t, k), Rotated(t, Towards(t, k)));
            var q := Hung(p, d, u.x, Child(u, Opp(d)));
            Paid(t, q, n + 1, false) && (Spares(t, k, q) ==> Paid(t, q, n + 1, true))
  {
    hide Log, Pot, Size, Hung, Rotated, Side, Child;
    var d := Towards(t, k);
    RotatedIs(t, d);
    var u := Rotated(t, d);
    var (z, o) := (Child(u, d), Child(u, Opp(d)));
    var q := Hung(p, d, u.x, o);
    HungIs(p, d, u.x, o);
    LogGrows(Size(z), Size(Child(t, d)));
    LogGrows(Size(Child(t, d)), Size(t));
    LogGrows(Size(Side(q, d)), Size(t));
    LogGrows(Size(o), Size(t));
    LogHalf(Size(o), Size(z), Size(t));
  }

  lemma PaidRotated(t: Tree, d: Dir)
    requires t.Bin? && Child(t, d).Bin? && Child(Rotated(t, d), d).Nil?
    ensures Paid(t, Whole(Rotated(t, d)), 1, true)
  {
    var u := Rotated(t, d);
    RotatedIs(t, d);
    LogGrows(Size(t) - 1, Size(t));
    ChildIs(u, d);
    assert Pot(Child(u, d)) == 0 && Size(Child(u, d)) == 0;
    hide Log, Rotated;
  }

  /** Every walk is paid for by the potential it sets free and three times the logarithm of the size. */
  lemma {:induction false} SplitPaid(t: Tree, k: int)
    requires t.Bin?
    ensures var (p, n) := Split(t, k); Paid(t, p, n, false) && (Spares(t, k, p) ==> Paid(t, p, n, true))
    decreases Size(t)
  {
    hide Paid, Log;
    var d := Towards(t, k);
    if AtOnce(t, k) {
      PaidAtOnce(t);
      Unspent(t, Whole(t), 1);
    } else if !Twice(t, k) {
      var (p, n) := Split(Child(t, d), k);
      SplitPaid(Child(t, d), k);
      PaidOnce(t, k, p, n);
    } else {
      var u := Rotated(t, d);
      if Child(u, d).Nil? {
        PaidRotated(t, d);
        Unspent(t, Whole(u), 1);
      } else {
        RotatedIs(t, d);
        var (p, n) := Split(Child(u, d), k);
        SplitPaid(Child(u, d), k);
        PaidTwice(t, k, p, n);
      }
    }
  }

  lemma Unspent(t: Tree, p: Parts, n: nat)
    requires Paid(t, p, n, true)
    ensures Paid(t, p, n, false)
  {}

  // ----- the walk is the loop -----

  lemma {:induction false} BuildAppend(d: Dir, hs: seq<Half>, h: Half, t: Tree)
    ensures Build(d, hs + [h], t) == Build(d, hs, Join(d, t, h.x, h.tree))
  {
    if hs == [] {
      assert hs + [h] == [h];
    } else {
      assert (hs + [h])[1..] == hs[1..] + [h];
      BuildAppend(d, hs[1..], h, t);
    }
  }

  function Put(s: State, p: Parts): Tree { Bin(Build(R, s.less, p.l), p.x, Build(L, s.more, p.r)) }

  lemma PutLinked(s: State, d: Dir, p: Parts)
    requires s.t.Bin?
    ensures Put(Linked(s, d), p) == Put(s, Hung(p, d, s.t.x, Child(s.t, Opp(d))))
  {
    BuildAppend(d, Ctx(s, d), Half(s.t.x, Child(s.t, Opp(d))), Side(p, d));
    hide Build;
  }

  /** One turn of the loop is one step of the walk. */
  lemma TurnSplit(s: State, k: int)
    requires s.t.Bin?
    ensures var (s', last) := Turn(s, k);
            var (p, n) := Split(s.t, k);
            && s'.t.Bin?
            && (last ==> n == 1 && Assembled(s') == Put(s, p))
            && (!last ==> var (p', n') := Split(s'.t, k); n == n' + 1 && Put(s', p') == Put(s, p))
  {
    var d := Towards(s.t, k);
    hide Put;
    if !AtOnce(s.t, k) {
      var s1 := Turned(s, k);
      if Twice(s.t, k) { RotatedIs(s.t, d); }
      if Child(s1.t, d).Bin? { PutLinked(s1, d, Split(Child(s1.t, d), k).0); }
    }
  }

  lemma {:induction false} RunSplit(s: State, k: int)
    requires s.t.Bin?
    ensures Assembled(Run(s, k)) == Put(s, Split(s.t, k).0)
    decreases Size(s.t)
  {
    hide Split, Put, Turn, Assembled;
    TurnShrinks(s, k);
    TurnSplit(s, k);
    if !Turn(s, k).1 { RunSplit(Turn(s, k).0, k); }
  }

  /** How many turns the loop takes for tree `t`. */
  function Turns(t: Tree, k: int): nat
    requires t.Bin?
  {
    Split(t, k).1
  }

  /** Splaying: its turns and twice the potential it leaves are at most twice the potential it finds and five
      times the logarithm of the size, and two. */
  lemma SplayPaid(t: Tree, k: int)
    requires t.Bin?
    ensures Size(Splayed(t, k)) == Size(t)
    ensures Turns(t, k) + 2 * Pot(Splayed(t, k)) <= 2 * Pot(t) + 5 * Log(Size(t)) + 2
  {
    hide Split, Run, Log;
    var (s, p) := (State([], t, []), Split(t, k).0);
    RunSplit(s, k);
    assert Put(s, p) == Bin(p.l, p.x, p.r);
    SplitPaid(t, k);
  }
}
