/** Quicksort with three-way partition: elements equal to the pivot are parked at both ends and swapped
    back into the middle. */
module Qsort {
  import opened Basics

  type Cmp<!T> = (T, T) -> int

  /** The comparator orders the elements, with elements of equal rank allowed. */
  ghost predicate Consistent<T(!new)>(cmp: Cmp<T>) {
    && (forall x, y :: cmp(x, y) < 0 <==> cmp(y, x) > 0)
    && (forall x, y, z :: cmp(x, y) <= 0 && cmp(y, z) <= 0 ==> cmp(x, z) <= 0)
  }

  ghost predicate SortedIn<T>(cmp: Cmp<T>, s: seq<T>, lo: int, hi: int)
    requires 0 <= lo && hi <= |s|
  {
    forall i, j :: lo <= i < j < hi ==> cmp(s[i], s[j]) <= 0
  }

  // ----- permutations of a range -----

  /** `t` is `s` with the elements from `lo` to `hi` rearranged. */
  ghost predicate Perm<T>(s: seq<T>, t: seq<T>, lo: nat, hi: nat) {
    && lo <= hi <= |s| == |t| && s[..lo] == t[..lo] && s[hi..] == t[hi..]
    && multiset(s[lo..hi]) == multiset(t[lo..hi])
  }

  function Swapped<T>(s: seq<T>, i: nat, j: nat): seq<T>
    requires i < |s| && j < |s|
  {
    s[i := s[j]][j := s[i]]
  }

  lemma PermTrans<T>(s: seq<T>, t: seq<T>, u: seq<T>, lo: nat, hi: nat)
    requires Perm(s, t, lo, hi) && Perm(t, u, lo, hi)
    ensures Perm(s, u, lo, hi)
  {}

  lemma SwapMulti<T>(s: seq<T>, i: nat, j: nat)
    requires i < |s| && j < |s|
    ensures multiset(Swapped(s, i, j)) == multiset(s)
  {}

  lemma PermSwap<T>(s: seq<T>, lo: nat, hi: nat, i: nat, j: nat)
    requires lo <= i < hi <= |s| && lo <= j < hi
    ensures Perm(s, Swapped(s, i, j), lo, hi)
  {
    var t := Swapped(s, i, j);
    SwapMulti(s[lo..hi], i - lo, j - lo);
    assert t[lo..hi] == Swapped(s[lo..hi], i - lo, j - lo);
  }

  /** A rearrangement of a part is one of the whole. */
  lemma PermWiden<T>(s: seq<T>, t: seq<T>, lo: nat, hi: nat, l: nat, h: nat)
    requires Perm(s, t, l, h) && lo <= l && h <= hi <= |s|
    ensures Perm(s, t, lo, hi)
  {
    assert s[lo..hi] == s[lo..l] + s[l..h] + s[h..hi] && t[lo..hi] == t[lo..l] + t[l..h] + t[h..hi];
    assert s[lo..l] == s[..l][lo..] && t[lo..l] == t[..l][lo..];
    assert s[h..hi] == s[h..][..hi - h] && t[h..hi] == t[h..][..hi - h];
    assert s[..lo] == s[..l][..lo] && t[..lo] == t[..l][..lo];
    assert s[hi..] == s[h..][hi - h..] && t[hi..] == t[h..][hi - h..];
  }

  /** Every element of the range was in the range before. */
  lemma PermFrom<T>(s: seq<T>, t: seq<T>, lo: nat, hi: nat, i: nat) returns (j: nat)
    requires Perm(s, t, lo, hi) && lo <= i < hi
    ensures lo <= j < hi && t[i] == s[j]
  {
    assert t[lo..hi][i - lo] in multiset(t[lo..hi]);
    assert t[i] in s[lo..hi];
    var k :| 0 <= k < hi - lo && s[lo..hi][k] == t[i];
    j := lo + k;
  }

  lemma PermOutside<T>(s: seq<T>, t: seq<T>, lo: nat, hi: nat, i: nat)
    requires Perm(s, t, lo, hi) && i < |s| && !(lo <= i < hi)
    ensures t[i] == s[i]
  {
    if i < lo {
      assert s[i] == s[..lo][i] && t[i] == t[..lo][i];
             } else { assert s[i] == s[hi..][i - hi] && t[i] == t[hi..][i - hi];
    }
  }

  // ----- insertion sort -----

  method Swap<T>(a: array<T>, i: nat, j: nat)
    requires i < a.Length && j < a.Length
    modifies a
    ensures a[..] == Swapped(old(a[..]), i, j)
  {
    var t := a[i];
    a[i] := a[j];
    a[j] := t;
  }

  /** Ordered up to `hi`, but for the element at `p`, which may belong further to the left. */
  ghost predicate AllBut<T>(cmp: Cmp<T>, s: seq<T>, lo: nat, hi: nat, p: nat)
    requires hi <= |s|
  {
    forall i, j :: lo <= i < j < hi && j != p ==> cmp(s[i], s[j]) <= 0
  }

  lemma SinkBegin<T>(cmp: Cmp<T>, s: seq<T>, lo: nat, pm: nat)
    requires lo <= pm < |s| && SortedIn(cmp, s, lo, pm)
    ensures AllBut(cmp, s, lo, pm + 1, pm)
  {}

  lemma SinkStep<T(!new)>(cmp: Cmp<T>, s: seq<T>, lo: nat, hi: nat, p: nat)
    requires Consistent(cmp) && lo < p < hi <= |s| && AllBut(cmp, s, lo, hi, p) && cmp(s[p - 1], s[p]) > 0
    ensures AllBut(cmp, Swapped(s, p, p - 1), lo, hi, p - 1)
  {}

  lemma SinkDone<T(!new)>(cmp: Cmp<T>, s: seq<T>, lo: nat, hi: nat, p: nat)
    requires Consistent(cmp) && lo <= p < hi <= |s| && AllBut(cmp, s, lo, hi, p)
             && (p == lo || cmp(s[p - 1], s[p]) <= 0)
    ensures SortedIn(cmp, s, lo, hi)
  {
    forall i | lo <= i < p ensures cmp(s[i], s[p]) <= 0 {
      assert i < p - 1 ==> cmp(s[i], s[p - 1]) <= 0;
    }
  }

  /** The element at `pm` brought to its place among those before it. */
  method Sink<T(!new)>(a: array<T>, lo: nat, hi: nat, pm: nat, cmp: Cmp<T>)
    requires Consistent(cmp) && lo <= pm < hi <= a.Length && SortedIn(cmp, a[..], lo, pm)
    modifies a
    ensures SortedIn(cmp, a[..], lo, pm + 1) && Perm(old(a[..]), a[..], lo, hi)
  {
    hide *;
    ghost var s := a[..];
    PermRefl(s, lo, hi);
    SinkBegin(cmp, s, lo, pm);
    var pl := pm;
    while pl > lo && cmp(a[pl - 1], a[pl]) > 0
      invariant lo <= pl <= pm && AllBut(cmp, a[..], lo, pm + 1, pl) && Perm(s, a[..], lo, hi)
    {
      ghost var t := a[..];
      SinkStep(cmp, t, lo, pm + 1, pl);
      PermSwap(t, lo, hi, pl, pl - 1);
      PermTrans(s, t, Swapped(t, pl, pl - 1), lo, hi);
      Swap(a, pl, pl - 1);
      pl := pl - 1;
    }
    SinkDone(cmp, a[..], lo, pm + 1, pl);
  }

  method InsertionSort<T(!new)>(a: array<T>, lo: nat, hi: nat, cmp: Cmp<T>)
    requires Consistent(cmp) && lo <= hi <= a.Length
    modifies a
    ensures SortedIn(cmp, a[..], lo, hi) && Perm(old(a[..]), a[..], lo, hi)
  {
    PermRefl(a[..], lo, hi);
    if lo == hi { return; }
    assert SortedIn(cmp, a[..], lo, lo + 1);
    hide Perm, Consistent, SortedIn;
    for pm := lo + 1 to hi
      invariant SortedIn(cmp, a[..], lo, pm) && Perm(old(a[..]), a[..], lo, hi)
    {
      ghost var s := a[..];
      Sink(a, lo, hi, pm, cmp);
      PermTrans(old(a[..]), s, a[..], lo, hi);
    }
  }

  lemma PermRefl<T>(s: seq<T>, lo: nat, hi: nat)
    requires lo <= hi <= |s|
    ensures Perm(s, s, lo, hi)
  {}

  // ----- the median of three -----

  /** The index of the middle one of three elements. */
  function Med3<T>(s: seq<T>, a: nat, b: nat, c: nat, cmp: Cmp<T>): (r: nat)
    requires a < |s| && b < |s| && c < |s|
    ensures r == a || r == b || r == c
  {
    if cmp(s[a], s[b]) < 0 then (if cmp(s[b], s[c]) < 0 then b else if cmp(s[a], s[c]) < 0 then c else a)
    else (if cmp(s[b], s[c]) > 0 then b else if cmp(s[a], s[c]) < 0 then a else c)
  }

  predicate Between<T>(cmp: Cmp<T>, x: T, y: T, z: T) { cmp(x, y) <= 0 && cmp(y, z) <= 0 }

  lemma Med3Is<T(!new)>(s: seq<T>, a: nat, b: nat, c: nat, cmp: Cmp<T>)
    requires Consistent(cmp) && a < |s| && b < |s| && c < |s|
    ensures var (m, x, y, z) := (Med3(s, a, b, c, cmp), s[a], s[b], s[c]);
            || (m == a && (Between(cmp, y, x, z) || Between(cmp, z, x, y)))
            || (m == b && (Between(cmp, x, y, z) || Between(cmp, z, y, x)))
            || (m == c && (Between(cmp, x, z, y) || Between(cmp, y, z, x)))
  {}

  // ----- the partition -----

  /** The element at `i` is below, equal to or above the pivot. */
  predicate Lt<T>(cmp: Cmp<T>, s: seq<T>, i: int, v: T) { 0 <= i < |s| && cmp(s[i], v) < 0 }

  predicate Eq<T>(cmp: Cmp<T>, s: seq<T>, i: int, v: T) { 0 <= i < |s| && cmp(s[i], v) == 0 }

  predicate Gt<T>(cmp: Cmp<T>, s: seq<T>, i: int, v: T) { 0 <= i < |s| && cmp(s[i], v) > 0 }

  /** Equal, less, not yet looked at, greater, equal: from `lo`, `pa`, `pb`, behind `pc` and behind `pd` on. */
  ghost predicate Parting<T>(cmp: Cmp<T>, s: seq<T>, lo: int, pa: int, pb: int, pc: int, pd: int, hi: int, v: T) {
    && 0 <= lo < pa <= pb <= pc + 1 && pc <= pd < hi <= |s| && s[lo] == v
    && (forall i :: lo <= i < pa ==> Eq(cmp, s, i, v)) && (forall i :: pa <= i < pb ==> Lt(cmp, s, i, v))
    && (forall i :: pc < i <= pd ==> Gt(cmp, s, i, v)) && (forall i :: pd < i < hi ==> Eq(cmp, s, i, v))
  }

  lemma StepEq<T>(cmp: Cmp<T>, s: seq<T>, lo: int, pa: int, pb: int, pc: int, pd: int, hi: int, v: T)
    requires Parting(cmp, s, lo, pa, pb, pc, pd, hi, v) && pb <= pc && cmp(s[pb], v) == 0
    ensures Parting(cmp, Swapped(s, pa, pb), lo, pa + 1, pb + 1, pc, pd, hi, v)
  {
    var t := Swapped(s, pa, pb);
    forall i | lo <= i < pa + 1 ensures Eq(cmp, t, i, v) { assert i < pa ==> Eq(cmp, s, i, v); }
    forall i | pa + 1 <= i < pb + 1 ensures Lt(cmp, t, i, v) { assert i < pb ==> Lt(cmp, s, i, v); assert pa < pb ==>
        Lt(cmp, s, pa, v); }
    forall i | pc < i <= pd ensures Gt(cmp, t, i, v) { assert Gt(cmp, s, i, v); }
    forall i | pd < i < hi ensures Eq(cmp, t, i, v) { assert Eq(cmp, s, i, v); }
  }

  lemma StepLt<T>(cmp: Cmp<T>, s: seq<T>, lo: int, pa: int, pb: int, pc: int, pd: int, hi: int, v: T)
    requires Parting(cmp, s, lo, pa, pb, pc, pd, hi, v) && pb <= pc && cmp(s[pb], v) < 0
    ensures Parting(cmp, s, lo, pa, pb + 1, pc, pd, hi, v)
  {}

  lemma StepEqEnd<T>(cmp: Cmp<T>, s: seq<T>, lo: int, pa: int, pb: int, pc: int, pd: int, hi: int, v: T)
    requires Parting(cmp, s, lo, pa, pb, pc, pd, hi, v) && pb <= pc && cmp(s[pc], v) == 0
    ensures Parting(cmp, Swapped(s, pc, pd), lo, pa, pb, pc - 1, pd - 1, hi, v)
  {
    var t := Swapped(s, pc, pd);
    forall i | lo <= i < pa ensures Eq(cmp, t, i, v) { assert Eq(cmp, s, i, v); }
    forall i | pa <= i < pb ensures Lt(cmp, t, i, v) { assert Lt(cmp, s, i, v); }
    forall i | pc - 1 < i <= pd - 1 ensures Gt(cmp, t, i, v) { assert i > pc ==> Gt(cmp, s, i, v); assert pc < pd ==>
        Gt(cmp, s, pd, v); }
    forall i | pd - 1 < i < hi ensures Eq(cmp, t, i, v) { assert i > pd ==> Eq(cmp, s, i, v); }
  }

  lemma StepGt<T>(cmp: Cmp<T>, s: seq<T>, lo: int, pa: int, pb: int, pc: int, pd: int, hi: int, v: T)
    requires Parting(cmp, s, lo, pa, pb, pc, pd, hi, v) && pb <= pc && cmp(s[pc], v) > 0
    ensures Parting(cmp, s, lo, pa, pb, pc - 1, pd, hi, v)
  {}

  lemma StepSwap<T>(cmp: Cmp<T>, s: seq<T>, lo: int, pa: int, pb: int, pc: int, pd: int, hi: int, v: T)
    requires Parting(cmp, s, lo, pa, pb, pc, pd, hi, v) && pb < pc && cmp(s[pb], v) > 0 && cmp(s[pc], v) < 0
    ensures Parting(cmp, Swapped(s, pb, pc), lo, pa, pb + 1, pc - 1, pd, hi, v)
  {
    var t := Swapped(s, pb, pc);
    forall i | lo <= i < pa ensures Eq(cmp, t, i, v) { assert Eq(cmp, s, i, v); }
    forall i | pa <= i < pb + 1 ensures Lt(cmp, t, i, v) { assert i < pb ==> Lt(cmp, s, i, v); }
    forall i | pc - 1 < i <= pd ensures Gt(cmp, t, i, v) { assert i > pc ==> Gt(cmp, s, i, v); }
    forall i | pd < i < hi ensures Eq(cmp, t, i, v) { assert Eq(cmp, s, i, v); }
  }

  /** The scan from the left, over what is not above the pivot. */
  method ScanUp<T>(a: array<T>, lo: nat, hi: nat, cmp: Cmp<T>, pa0: nat, pb0: nat, pc: int, pd: int, ghost v: T)
      returns (pa: nat, pb: nat, swaps: bool)
    requires hi <= a.Length && Parting(cmp, a[..], lo, pa0, pb0, pc, pd, hi, v)
    modifies a
    ensures Parting(cmp, a[..], lo, pa, pb, pc, pd, hi, v) && Perm(old(a[..]), a[..], lo, hi) && pb >= pb0
    ensures pb <= pc ==> cmp(a[pb], v) > 0
    ensures !swaps ==> a[..] == old(a[..]) && pa == pa0
  {
    PermRefl(a[..], lo, hi);
    hide Perm, Swapped;
    pa, pb, swaps := pa0, pb0, false;
    while pb <= pc && cmp(a[pb], a[lo]) <= 0
      invariant Parting(cmp, a[..], lo, pa, pb, pc, pd, hi, v) && Perm(old(a[..]), a[..], lo, hi) && pb >= pb0
      invariant !swaps ==> a[..] == old(a[..]) && pa == pa0
      decreases pc - pb
    {
      if cmp(a[pb], a[lo]) == 0 {
        swaps := true;
        StepEq(cmp, a[..], lo, pa, pb, pc, pd, hi, v);
        PermSwap(a[..], lo, hi, pa, pb);
        PermTrans(old(a[..]), a[..], Swapped(a[..], pa, pb), lo, hi);
        Swap(a, pa, pb);
        pa := pa + 1;
      } else {
        StepLt(cmp, a[..], lo, pa, pb, pc, pd, hi, v);
      }
      pb := pb + 1;
    }
  }

  lemma SwapKeeps<T>(s: seq<T>, i: nat, j: nat, k: nat)
    requires i < |s| && j < |s| && k < |s| && k != i && k != j
    ensures Swapped(s, i, j)[k] == s[k]
  {}

  /** The scan from the right, over what is not below the pivot. */
  method ScanDown<T>(a: array<T>, lo: nat, hi: nat, cmp: Cmp<T>, pa: nat, pb: nat, pc0: int, pd0: int, ghost v: T)
      returns (pc: int, pd: int, swaps: bool)
    requires hi <= a.Length && Parting(cmp, a[..], lo, pa, pb, pc0, pd0, hi, v)
    modifies a
    ensures Parting(cmp, a[..], lo, pa, pb, pc, pd, hi, v) && Perm(old(a[..]), a[..], lo, hi) && pc <= pc0
    ensures pb <= pc ==> cmp(a[pc], v) < 0
    ensures pb <= pc ==> a[pb] == old(a[pb])
    ensures !swaps ==> a[..] == old(a[..]) && pd == pd0
  {
    hide Perm, Swapped;
    PermRefl(a[..], lo, hi);
    pc, pd, swaps := pc0, pd0, false;
    while pb <= pc && cmp(a[pc], a[lo]) >= 0
      invariant Parting(cmp, a[..], lo, pa, pb, pc, pd, hi, v) && Perm(old(a[..]), a[..], lo, hi) && pc <= pc0
      invariant pb <= pc ==> a[pb] == old(a[pb])
      invariant !swaps ==> a[..] == old(a[..]) && pd == pd0
      decreases pc - pb
    {
      if cmp(a[pc], a[lo]) == 0 {
        swaps := true;
        if pb < pc { SwapKeeps(a[..], pc, pd, pb); }
        StepEqEnd(cmp, a[..], lo, pa, pb, pc, pd, hi, v);
        PermSwap(a[..], lo, hi, pc, pd);
        PermTrans(old(a[..]), a[..], Swapped(a[..], pc, pd), lo, hi);
        Swap(a, pc, pd);
        pd := pd - 1;
      } else {
        StepGt(cmp, a[..], lo, pa, pb, pc, pd, hi, v);
      }
      pc := pc - 1;
    }
  }

  /** The partition around `a[lo]`; `swaps` says whether any two elements were exchanged. */
  method Partition<T>(a: array<T>, lo: nat, hi: nat, cmp: Cmp<T>)
      returns (pa: nat, pb: nat, pc: int, pd: int, swaps: bool)
    requires lo + 2 <= hi <= a.Length && cmp(a[lo], a[lo]) == 0
    modifies a
    ensures a[lo] == old(a[lo]) && Parting(cmp, a[..], lo, pa, pb, pc, pd, hi, a[lo]) && pb == pc + 1
            && Perm(old(a[..]), a[..], lo, hi)
    ensures !swaps ==> a[..] == old(a[..])
  {
    ghost var v := a[lo];
    pa, pb, pc, pd, swaps := lo + 1, lo + 1, hi - 1, hi - 1, false;
    hide *;
    PermRefl(a[..], lo, hi);
    PartingStart(cmp, a[..], lo, hi);
    while true
      invariant Parting(cmp, a[..], lo, pa, pb, pc, pd, hi, v) && Perm(old(a[..]), a[..], lo, hi)
      invariant !swaps ==> a[..] == old(a[..])
      decreases pc - pb
    {
      ghost var s := a[..];
      var did;
      pa, pb, did := ScanUp(a, lo, hi, cmp, pa, pb, pc, pd, v);
      PermTrans(old(a[..]), s, a[..], lo, hi);
      swaps := swaps || did;
      ghost var t := a[..];
      pc, pd, did := ScanDown(a, lo, hi, cmp, pa, pb, pc, pd, v);
      PermTrans(old(a[..]), t, a[..], lo, hi);
      swaps := swaps || did;
      InRange(cmp, a[..], lo, pa, pb, pc, pd, hi, v);
      if pb > pc { break; }
      StepSwap(cmp, a[..], lo, pa, pb, pc, pd, hi, v);
      PermSwap(a[..], lo, hi, pb, pc);
      PermTrans(old(a[..]), a[..], Swapped(a[..], pb, pc), lo, hi);
      Swap(a, pb, pc);
      swaps := true;
      pb := pb + 1;
      pc := pc - 1;
    }
  }

  lemma PartingStart<T>(cmp: Cmp<T>, s: seq<T>, lo: nat, hi: nat)
    requires lo + 2 <= hi <= |s| && cmp(s[lo], s[lo]) == 0
    ensures Parting(cmp, s, lo, lo + 1, lo + 1, hi - 1, hi - 1, hi, s[lo])
  {}

  lemma InRange<T>(cmp: Cmp<T>, s: seq<T>, lo: int, pa: int, pb: int, pc: int, pd: int, hi: int, v: T)
    requires Parting(cmp, s, lo, pa, pb, pc, pd, hi, v)
    ensures 0 <= lo < pa <= pb <= pc + 1 && pc <= pd < hi <= |s| && s[lo] == v
  {}

  // ----- back from the ends -----

  /** The `n` elements from `i` on exchanged with those from `j` on. */
  function Exchanged<T>(s: seq<T>, i: nat, j: nat, n: nat): (r: seq<T>)
    requires i + n <= j && j + n <= |s|
    ensures |r| == |s|
  {
    seq(|s|, k requires 0 <= k < |s| => if i <= k < i + n then s[k + j - i] else if j <= k < j + n then s[k - j + i]
        else s[k])
  }

  ghost predicate Halfway<T>(s: seq<T>, t: seq<T>, lo: nat, hi: nat, i: nat, j: nat, k: nat) {
    i + k <= j && j + k <= |s| && t == Exchanged(s, i, j, k) && Perm(s, t, lo, hi)
  }

  lemma HalfwayNext<T>(s: seq<T>, t: seq<T>, lo: nat, hi: nat, i: nat, j: nat, k: nat)
    requires Halfway(s, t, lo, hi, i, j, k) && lo <= i && i + k + 1 <= j && j + k + 1 <= hi <= |s| == |t|
    ensures Halfway(s, Swapped(t, i + k, j + k), lo, hi, i, j, k + 1)
  {
    hide Perm, Exchanged, Swapped;
    ExchangedNext(s, i, j, k);
    PermSwap(t, lo, hi, i + k, j + k);
    PermTrans(s, t, Swapped(t, i + k, j + k), lo, hi);
  }

  method SwapEach<T>(a: array<T>, ghost s: seq<T>, lo: nat, hi: nat, i: nat, j: nat, n: nat)
    requires lo <= i && i + n <= j && j + n <= hi <= a.Length == |s| && Halfway(s, a[..], lo, hi, i, j, 0)
    modifies a
    ensures Halfway(s, a[..], lo, hi, i, j, n)
  {
    hide *;
    var k := 0;
    while k < n
      invariant 0 <= k <= n && Halfway(s, a[..], lo, hi, i, j, k)
    {
      HalfwayNext(s, a[..], lo, hi, i, j, k);
      Swap(a, i + k, j + k);
      k := k + 1;
    }
  }

  method VecSwap<T>(a: array<T>, lo: nat, hi: nat, i: nat, j: nat, n: nat)
    requires lo <= i && i + n <= j && j + n <= hi <= a.Length
    modifies a
    ensures a[..] == Exchanged(old(a[..]), i, j, n) && Perm(old(a[..]), a[..], lo, hi)
  {
    hide *;
    ghost var s := a[..];
    HalfwayStart(s, lo, hi, i, j);
    SwapEach(a, s, lo, hi, i, j, n);
    HalfwayDone(s, a[..], lo, hi, i, j, n);
  }

  lemma HalfwayStart<T>(s: seq<T>, lo: nat, hi: nat, i: nat, j: nat)
    requires lo <= i <= j <= hi <= |s|
    ensures Halfway(s, s, lo, hi, i, j, 0)
  {
    PermRefl(s, lo, hi);
    ExchangedNone(s, i, j);
  }

  lemma HalfwayDone<T>(s: seq<T>, t: seq<T>, lo: nat, hi: nat, i: nat, j: nat, k: nat)
    requires Halfway(s, t, lo, hi, i, j, k)
    ensures i + k <= j && j + k <= |s| && t == Exchanged(s, i, j, k) && Perm(s, t, lo, hi)
  {}

  lemma ExchangedNone<T>(s: seq<T>, i: nat, j: nat)
    requires i <= j <= |s|
    ensures Exchanged(s, i, j, 0) == s
  {}

  lemma ExchangedNext<T>(s: seq<T>, i: nat, j: nat, k: nat)
    requires i + k + 1 <= j && j + k + 1 <= |s|
    ensures Swapped(Exchanged(s, i, j, k), i + k, j + k) == Exchanged(s, i, j, k + 1)
  {
    var (t, u) := (Swapped(Exchanged(s, i, j, k), i + k, j + k), Exchanged(s, i, j, k + 1));
    forall x | 0 <= x < |s| ensures t[x] == u[x] {}
  }

  /** Less, equal, greater: from `lo`, `p` and `q` on. */
  ghost predicate Parted<T>(cmp: Cmp<T>, s: seq<T>, lo: int, p: int, q: int, hi: int, v: T) {
    && 0 <= lo <= p <= q <= hi <= |s| && (forall i :: lo <= i < p ==> Lt(cmp, s, i, v))
    && (forall i :: p <= i < q ==> Eq(cmp, s, i, v)) && (forall i :: q <= i < hi ==> Gt(cmp, s, i, v))
  }

  lemma LeftBack<T>(cmp: Cmp<T>, s: seq<T>, lo: nat, pa: nat, pb: nat, pc: int, pd: int, hi: nat, v: T)
    requires Parting(cmp, s, lo, pa, pb, pc, pd, hi, v) && pb == pc + 1
    ensures var r := Min(pa - lo, pb - pa);
            var t := Exchanged(s, lo, pb - r, r);
            Parted(cmp, t, lo, lo + (pb - pa), pb, pb, v) && forall i :: pb <= i < |s| ==> t[i] == s[i]
  {
    var r := Min(pa - lo, pb - pa);
    var t := Exchanged(s, lo, pb - r, r);
    forall i | lo <= i < lo + (pb - pa) ensures Lt(cmp, t, i, v) {
      var j := if i < lo + r then i + (pb - r) - lo else i;
      assert t[i] == s[j] && Lt(cmp, s, j, v);
    }
    forall i | lo + (pb - pa) <= i < pb ensures Eq(cmp, t, i, v) {
      var j := if pb - r <= i then i - (pb - r) + lo else i;
      assert t[i] == s[j] && Eq(cmp, s, j, v);
    }
  }

  lemma RightBack<T>(cmp: Cmp<T>, s: seq<T>, lo: nat, p: nat, pb: nat, pc: int, pd: int, hi: nat, v: T)
    requires Parted(cmp, s, lo, p, pb, pb, v) && pb == pc + 1 && pc <= pd < hi <= |s|
    requires (forall i :: pc < i <= pd ==> Gt(cmp, s, i, v)) && (forall i :: pd < i < hi ==> Eq(cmp, s, i, v))
    ensures var r := Min(pd - pc, hi - pd - 1);
            Parted(cmp, Exchanged(s, pb, hi - r, r), lo, p, hi - (pd - pc), hi, v)
  {
    var r := Min(pd - pc, hi - pd - 1);
    var t := Exchanged(s, pb, hi - r, r);
    forall i | lo <= i < p ensures Lt(cmp, t, i, v) { assert Lt(cmp, s, i, v); }
    forall i | p <= i < hi - (pd - pc) ensures Eq(cmp, t, i, v) {
      var j := if i < pb then i else if i < pb + r then i + (hi - r) - pb else i;
      assert t[i] == s[j] && Eq(cmp, s, j, v);
    }
    forall i | hi - (pd - pc) <= i < hi ensures Gt(cmp, t, i, v) {
      var j := if hi - r <= i then i - (hi - r) + pb else i;
      assert t[i] == s[j] && Gt(cmp, s, j, v);
    }
  }

  // ----- sorting -----

  /** Nothing from `lo` to `mid` ranks above anything from `mid` to `hi`. */
  ghost predicate Split<T>(cmp: Cmp<T>, s: seq<T>, lo: nat, mid: nat, hi: nat) {
    lo <= mid <= hi <= |s| && forall i, j :: lo <= i < mid && mid <= j < hi ==> cmp(s[i], s[j]) <= 0
  }

  /** Ordering the front of the part not yet in order. */
  lemma Extend<T>(cmp: Cmp<T>, s: seq<T>, t: seq<T>, lo0: nat, lo: nat, q: nat, hi: nat)
    requires Split(cmp, s, lo0, lo, hi) && SortedIn(cmp, s, lo0, lo) && Perm(s, t, lo, hi) && Split(cmp, t, lo, q, hi)
             && SortedIn(cmp, t, lo, q)
    ensures SortedIn(cmp, t, lo0, q) && Split(cmp, t, lo0, q, hi)
  {
    hide Perm;
    forall i | lo0 <= i < lo ensures t[i] == s[i] { PermOutside(s, t, lo, hi, i); }
    forall i, j | lo0 <= i < lo && lo <= j < hi ensures cmp(t[i], t[j]) <= 0 {
      var k := PermFrom(s, t, lo, hi, j);
      assert cmp(s[i], s[k]) <= 0;
    }
  }

  /** A partition keeps its parts when the lowest part is rearranged. */
  lemma PartedPerm<T>(cmp: Cmp<T>, s: seq<T>, t: seq<T>, lo: nat, p: nat, q: nat, hi: nat, v: T)
    requires Parted(cmp, s, lo, p, q, hi, v) && Perm(s, t, lo, p)
    ensures Parted(cmp, t, lo, p, q, hi, v)
  {
    assert |t| == |s|;
    hide Perm;
    forall i | lo <= i < p ensures Lt(cmp, t, i, v) {
      var j := PermFrom(s, t, lo, p, i);
      assert Lt(cmp, s, j, v);
    }
    forall i | p <= i < hi ensures t[i] == s[i] { PermOutside(s, t, lo, p, i); }
    forall i | p <= i < q ensures Eq(cmp, t, i, v) { assert Eq(cmp, s, i, v); }
    forall i | q <= i < hi ensures Gt(cmp, t, i, v) { assert Gt(cmp, s, i, v); }
  }

  /** With the lowest part in order, all but the highest part is. */
  lemma PartedSorted<T(!new)>(cmp: Cmp<T>, s: seq<T>, lo: nat, p: nat, q: nat, hi: nat, v: T)
    requires Consistent(cmp) && Parted(cmp, s, lo, p, q, hi, v) && SortedIn(cmp, s, lo, p)
    ensures SortedIn(cmp, s, lo, q) && Split(cmp, s, lo, q, hi)
  {
    forall i | lo <= i < q ensures cmp(s[i], v) <= 0 { assert if i < p then Lt(cmp, s, i, v) else Eq(cmp, s, i, v); }
    forall j | p <= j < hi ensures cmp(v, s[j]) <= 0 { assert if j < q then Eq(cmp, s, j, v) else Gt(cmp, s, j, v); }
    forall i, j | lo <= i < j < q ensures cmp(s[i], s[j]) <= 0 {
      assert j >= p ==> cmp(s[i], v) <= 0 && cmp(v, s[j]) <= 0;
    }
  }

  /** The place of the pivot: the middle, the median of three, or the median of three such medians. */
  method PivotAt<T>(a: array<T>, lo: nat, hi: nat, cmp: Cmp<T>) returns (pm: nat)
    requires lo + 7 <= hi <= a.Length
    ensures lo <= pm < hi
  {
    var n := hi - lo;
    pm := lo + n / 2;
    if n > 7 {
      var pl, pn := lo, hi - 1;
      if n > 40 {
        var d := n / 8;
        pl := Med3(a[..], pl, pl + d, pl + 2 * d, cmp);
        pm := Med3(a[..], pm - d, pm, pm + d, cmp);
        pn := Med3(a[..], pn - 2 * d, pn - d, pn, cmp);
      }
      pm := Med3(a[..], pl, pm, pn, cmp);
    }
  }

  /** The three parts around the pivot, from the partition with its equal elements still at the ends. */
  method BringBack<T>(a: array<T>, lo: nat, hi: nat, cmp: Cmp<T>, pa: nat, pb: nat, pc: int, pd: int, ghost v: T)
      returns (p: nat, q: nat)
    requires hi <= a.Length && Parting(cmp, a[..], lo, pa, pb, pc, pd, hi, v) && pb == pc + 1
    modifies a
    ensures Parted(cmp, a[..], lo, p, q, hi, v) && p == lo + (pb - pa) && q == hi - (pd - pc)
            && Perm(old(a[..]), a[..], lo, hi)
  {
    hide Perm, Exchanged, Parted;
    ghost var s := a[..];
    var r := Min(pa - lo, pb - pa);
    LeftBack(cmp, s, lo, pa, pb, pc, pd, hi, v);
    VecSwap(a, lo, hi, lo, pb - r, r);
    ghost var t := a[..];
    p, q := lo + (pb - pa), hi - (pd - pc);
    forall i | pb <= i < hi ensures t[i] == s[i] {}
    forall i | pc < i <= pd ensures Gt(cmp, t, i, v) { assert Gt(cmp, s, i, v); }
    forall i | pd < i < hi ensures Eq(cmp, t, i, v) { assert Eq(cmp, s, i, v); }
    r := Min(pd - pc, hi - pd - 1);
    RightBack(cmp, t, lo, p, pb, pc, pd, hi, v);
    VecSwap(a, lo, hi, pb, hi - r, r);
    PermTrans(s, t, a[..], lo, hi);
  }

  /** One pass: all from `lo` to `q` in order and nothing behind it ranking below. */
  method Pass<T(!new)>(a: array<T>, lo: nat, hi: nat, cmp: Cmp<T>) returns (q: nat)
    requires Consistent(cmp) && lo + 7 <= hi <= a.Length
    modifies a
    ensures lo < q <= hi && SortedIn(cmp, a[..], lo, q) && Split(cmp, a[..], lo, q, hi)
            && Perm(old(a[..]), a[..], lo, hi)
    decreases hi - lo, 0
  {
    hide Perm, Parted, SortedIn, Split, Parting;
    ghost var s := a[..];
    var pm := PivotAt(a, lo, hi, cmp);
    PermSwap(s, lo, hi, lo, pm);
    Swap(a, lo, pm);
    ghost var t := a[..];
    var pa, pb, pc, pd, swaps := Partition(a, lo, hi, cmp);
    PermTrans(s, t, a[..], lo, hi);
    t := a[..];
    if !swaps {
      InsertionSort(a, lo, hi, cmp);
      PermTrans(s, t, a[..], lo, hi);
      SplitEnd(cmp, a[..], lo, hi);
      return hi;
    }
    ghost var v := a[lo];
    InRange(cmp, a[..], lo, pa, pb, pc, pd, hi, v);
    var p;
    p, q := BringBack(a, lo, hi, cmp, pa, pb, pc, pd, v);
    PermTrans(s, t, a[..], lo, hi);
    t := a[..];
    if p - lo > 1 {
      QuickSort(a, lo, p, cmp);
      PartedPerm(cmp, t, a[..], lo, p, q, hi, v);
      PermWiden(t, a[..], lo, hi, lo, p);
      PermTrans(s, t, a[..], lo, hi);
    } else {
      SortedOne(cmp, a[..], lo, p);
    }
    PartedSorted(cmp, a[..], lo, p, q, hi, v);
  }

  lemma SplitEnd<T>(cmp: Cmp<T>, s: seq<T>, lo: nat, hi: nat)
    requires lo <= hi <= |s|
    ensures Split(cmp, s, lo, hi, hi) && Split(cmp, s, lo, lo, hi)
  {}

  lemma SortedOne<T>(cmp: Cmp<T>, s: seq<T>, lo: nat, hi: nat)
    requires lo <= hi <= |s| && hi - lo <= 1
    ensures SortedIn(cmp, s, lo, hi)
  {}

  /** Sorts `a[lo..hi]`: recursion for the lower part, iteration for the upper one. */
  method QuickSort<T(!new)>(a: array<T>, lo0: nat, hi: nat, cmp: Cmp<T>)
    requires Consistent(cmp) && lo0 <= hi <= a.Length
    modifies a
    ensures SortedIn(cmp, a[..], lo0, hi) && Perm(old(a[..]), a[..], lo0, hi)
    decreases hi - lo0, 1
  {
    hide Perm, SortedIn, Split, Consistent;
    var lo := lo0;
    PermRefl(a[..], lo0, hi);
    SplitEnd(cmp, a[..], lo0, hi);
    SortedOne(cmp, a[..], lo0, lo0);
    while true
      invariant lo0 <= lo <= hi && SortedIn(cmp, a[..], lo0, lo) && Split(cmp, a[..], lo0, lo, hi)
                && Perm(old(a[..]), a[..], lo0, hi)
      decreases hi - lo
    {
      ghost var s := a[..];
      var q := hi;
      if hi - lo < 7 {
        InsertionSort(a, lo, hi, cmp);
        SplitEnd(cmp, a[..], lo, hi);
      } else {
        q := Pass(a, lo, hi, cmp);
      }
      Extend(cmp, s, a[..], lo0, lo, q, hi);
      PermWiden(s, a[..], lo0, hi, lo, hi);
      PermTrans(old(a[..]), s, a[..], lo0, hi);
      if q + 1 >= hi {
        LastOne(cmp, a[..], lo0, q, hi);
        return;
      }
      lo := q;
    }
  }

  lemma LastOne<T>(cmp: Cmp<T>, s: seq<T>, lo: nat, q: nat, hi: nat)
    requires Split(cmp, s, lo, q, hi) && SortedIn(cmp, s, lo, q) && q + 1 >= hi
    ensures SortedIn(cmp, s, lo, hi)
  {}
}
