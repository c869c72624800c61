/** The lock-free descriptor map as a step system: any number of threads, one atomic operation
    per step, every interleaving. Each run is shown to be a run of a map whose indices are free,
    stored, or held by one thread. */
module Fmap {
  import opened Bitmap

  /** A pointer; 0 is NULL. */
  type Ptr = nat

  datatype Op =
    | Put(p: Ptr, min: int)
    | Take(idx: int)
    | CriticalTake(idx: int)
    | CriticalPut(idx: int, p: Ptr)
    | Xchg(idx: int, p: Ptr)
    | Lookup(idx: int)

  /** Where a thread stands: the constructor names the next atomic operation. */
  datatype Pc =
    | Idle
    | PutScan(p: Ptr, min: nat, i: nat)
    | PutReserve(p: Ptr, min: nat, i: nat)
    | PutStore(p: Ptr, i: nat)
    | TakeCheck(i: nat)
    | TakeXchg(i: nat)
    | TakeFree(i: nat, got: Ptr)
    | GrabXchg(i: nat)
    | GrabCheck(i: nat)
    | BackReserve(i: nat, p: Ptr)
    | BackStore(i: nat, p: Ptr)
    | SwapReserve(i: nat, p: Ptr)
    | SwapStore(i: nat, p: Ptr)
    | SwapXchg(i: nat, p: Ptr)
    | SwapCheck(i: nat, p: Ptr)
    | SwapBackReserve(i: nat, p: Ptr, got: Ptr)
    | SwapBackStore(i: nat, p: Ptr, got: Ptr)
    | LookRead(i: nat)
    | LookCheck(i: nat)

  /** `held` are the indices a critical take has returned and no critical put has given back. */
  datatype Thread = Thread(pc: Pc, held: set<nat>)

  /** `failed` records a fired assertion; the multisets record entries handed in by callers, handed
      out to callers, and turned away because the map was full or the index out of range. */
  datatype State = State(words: seq<Word>, slots: seq<Ptr>, threads: seq<Thread>, failed: bool,
                         entered: multiset<Ptr>, left: multiset<Ptr>, refused: multiset<Ptr>)

  datatype Label = Start(t: nat, op: Op) | Run(t: nat)

  predicate InRange(s: State, idx: int) { 0 <= idx < |s.slots| }

  ghost predicate Shape(s: State) {
    && |s.slots| <= BITS * |s.words|
    && forall t :: 0 <= t < |s.threads| ==> PcInRange(s.threads[t].pc, |s.slots|)
  }

  predicate PcInRange(pc: Pc, n: nat) {
    match pc
    case Idle => true
    case PutScan(_, min, i) => min <= i <= n
    case PutReserve(_, min, i) => min <= i < n
    case _ => pc.i < n
  }

  /** Callers hand in non-null entries, give back only what they hold, and start one call at a time. */
  predicate Legal(s: State, l: Label) {
    && l.t < |s.threads|
    && match l
       case Start(t, op) =>
         && s.threads[t].pc.Idle?
         && (op.Put? || op.CriticalPut? || op.Xchg? ==> op.p != 0)
         && (op.CriticalPut? && InRange(s, op.idx) ==> op.idx in s.threads[t].held)
       case Run(t) => !s.threads[t].pc.Idle?
  }

  function SetPc(s: State, t: nat, pc: Pc): State
    requires t < |s.threads|
  {
    s.(threads := s.threads[t := s.threads[t].(pc := pc)])
  }

  function Begin(s: State, t: nat, op: Op): State
    requires t < |s.threads|
  {
    match op
    case Put(p, min) =>
      var s1 := s.(entered := s.entered + multiset{p});
      if InRange(s, min) then SetPc(s1, t, PutScan(p, min, min)) else s1.(refused := s1.refused + multiset{p})
    case Take(idx) => if InRange(s, idx) then SetPc(s, t, TakeCheck(idx)) else s
    case CriticalTake(idx) => if InRange(s, idx) then SetPc(s, t, GrabXchg(idx)) else s
    case CriticalPut(idx, p) =>
      var s1 := s.(entered := s.entered + multiset{p});
      if InRange(s, idx) then
        s1.(threads := s.threads[t := Thread(BackReserve(idx, p), s.threads[t].held - {idx as nat})])
      else s1.(refused := s1.refused + multiset{p})
    case Xchg(idx, p) =>
      var s1 := s.(entered := s.entered + multiset{p});
      if InRange(s, idx) then SetPc(s1, t, SwapReserve(idx, p)) else s1.(refused := s1.refused + multiset{p})
    case Lookup(idx) => if InRange(s, idx) then SetPc(s, t, LookRead(idx)) else s
  }

  /** Where thread `t` goes after its atomic operation, decided by the value that operation read. */
  function NextPc(s: State, pc: Pc): Pc
    requires |s.slots| <= BITS * |s.words| && PcInRange(pc, |s.slots|)
  {
    match pc
    case Idle => Idle
    case PutScan(p, min, i) =>
      if i == |s.slots| then Idle else if Test(s.words, i) then PutReserve(p, min, i) else PutScan(p, min, i + 1)
    case PutReserve(p, min, i) => if Test(s.words, i) then PutStore(p, i) else PutScan(p, min, min)
    case PutStore(p, i) => Idle
    case TakeCheck(i) => if Test(s.words, i) then Idle else TakeXchg(i)
    case TakeXchg(i) => if s.slots[i] == 0 then TakeCheck(i) else TakeFree(i, s.slots[i])
    case TakeFree(i, got) => Idle
    case GrabXchg(i) => if s.slots[i] == 0 then GrabCheck(i) else Idle
    case GrabCheck(i) => if Test(s.words, i) then Idle else GrabXchg(i)
    case BackReserve(i, p) => BackStore(i, p)
    case BackStore(i, p) => Idle
    case SwapReserve(i, p) => if Test(s.words, i) then SwapStore(i, p) else SwapXchg(i, p)
    case SwapStore(i, p) => Idle
    case SwapXchg(i, p) => if s.slots[i] == 0 then SwapCheck(i, p) else SwapBackReserve(i, p, s.slots[i])
    case SwapCheck(i, p) => if Test(s.words, i) then SwapReserve(i, p) else SwapXchg(i, p)
    case SwapBackReserve(i, p, got) => SwapBackStore(i, p, got)
    case SwapBackStore(i, p, got) => Idle
    case LookRead(i) => if s.slots[i] == 0 then LookCheck(i) else Idle
    case LookCheck(i) => if Test(s.words, i) then Idle else LookRead(i)
  }

  /** The atomic operations that clear a bit, that exchange an entry into a slot, and that exchange
      NULL into a slot. */
  predicate Clears(pc: Pc) { pc.PutReserve? || pc.BackReserve? || pc.SwapReserve? || pc.SwapBackReserve? }

  predicate Stores(pc: Pc) { pc.PutStore? || pc.BackStore? || pc.SwapStore? || pc.SwapBackStore? }

  predicate Grabs(pc: Pc) { pc.TakeXchg? || pc.GrabXchg? || pc.SwapXchg? }

  /** The entry the operation returns to its caller, NULL if it does not return one. */
  function Returned(s: State, pc: Pc): Ptr
    requires PcInRange(pc, |s.slots|)
  {
    match pc
    case TakeFree(_, got) => got
    case GrabXchg(i) => s.slots[i]
    case SwapBackStore(_, _, got) => got
    case _ => 0
  }

  function One(p: Ptr): multiset<Ptr> { if p == 0 then multiset{} else multiset{p} }

  /** One atomic operation of thread `t`. A store asserts that it found NULL, the final freeing of a
      take that the bit was clear. */
  function Advance(s: State, t: nat): State
    requires t < |s.threads| && |s.slots| <= BITS * |s.words| && PcInRange(s.threads[t].pc, |s.slots|)
  {
    var Thread(pc, held) := s.threads[t];
    State(
      if Clears(pc) then Clear(s.words, pc.i) else if pc.TakeFree? then Set(s.words, pc.i) else s.words,
      if Stores(pc) then s.slots[pc.i := pc.p] else if Grabs(pc) then s.slots[pc.i := 0] else s.slots,
      s.threads[t := Thread(NextPc(s, pc), if pc.GrabXchg? && s.slots[pc.i] != 0 then held + {pc.i} else held)],
      s.failed || (Stores(pc) && s.slots[pc.i] != 0) || (pc.TakeFree? && Test(s.words, pc.i)),
      s.entered, s.left + One(Returned(s, pc)),
      s.refused + if pc.PutScan? && pc.i == |s.slots| then multiset{pc.p} else multiset{})
  }

  ghost function Step(s: State, l: Label): State
    requires Shape(s) && Legal(s, l)
  {
    match l
    case Start(t, op) => Begin(s, t, op)
    case Run(t) => Advance(s, t)
  }

  // ----- the abstract map -----

  datatype Index = Free | Stored(p: Ptr) | Held(t: nat)

  /** What a step does to the abstract map. */
  datatype Act = Quiet | Reserve(t: nat, i: nat) | Store(t: nat, i: nat, p: Ptr) | Grab(t: nat, i: nat)
      | Release(t: nat, i: nat)

  predicate Enabled(a: seq<Index>, act: Act) {
    match act
    case Quiet => true
    case Reserve(t, i) => i < |a| && a[i] == Free
    case Store(t, i, p) => i < |a| && a[i] == Held(t) && p != 0
    case Grab(t, i) => i < |a| && a[i].Stored?
    case Release(t, i) => i < |a| && a[i] == Held(t)
  }

  function Apply(a: seq<Index>, act: Act): seq<Index>
    requires Enabled(a, act)
  {
    match act
    case Quiet => a
    case Reserve(t, i) => a[i := Held(t)]
    case Store(t, i, p) => a[i := Stored(p)]
    case Grab(t, i) => a[i := Held(t)]
    case Release(t, i) => a[i := Free]
  }

  /** The index a thread owns by being in the middle of a call. */
  function PcHold(pc: Pc): set<nat> {
    match pc
    case PutStore(_, i) => {i}
    case TakeFree(i, _) => {i}
    case BackReserve(i, _) => {i}
    case BackStore(i, _) => {i}
    case SwapStore(i, _) => {i}
    case SwapBackReserve(i, _, _) => {i}
    case SwapBackStore(i, _, _) => {i}
    case _ => {}
  }

  function Holds(th: Thread): set<nat> { th.held + PcHold(th.pc) }

  function PtrOf(x: Index): Ptr { if x.Stored? then x.p else 0 }

  /** The pointers a thread carries in the middle of a call are not null. */
  predicate PcPtrs(pc: Pc) {
    match pc
    case PutScan(p, _, _) => p != 0
    case PutReserve(p, _, _) => p != 0
    case PutStore(p, _) => p != 0
    case TakeFree(_, got) => got != 0
    case BackReserve(_, p) => p != 0
    case BackStore(_, p) => p != 0
    case SwapReserve(_, p) => p != 0
    case SwapStore(_, p) => p != 0
    case SwapXchg(_, p) => p != 0
    case SwapCheck(_, p) => p != 0
    case SwapBackReserve(_, p, got) => p != 0 && got != 0
    case SwapBackStore(_, p, got) => p != 0 && got != 0
    case _ => true
  }

  ghost predicate ThreadOk(th: Thread, t: nat, a: seq<Index>) {
    && PcInRange(th.pc, |a|) && PcPtrs(th.pc) && th.held !! PcHold(th.pc)
    && forall i: nat :: i in Holds(th) <==> i < |a| && a[i] == Held(t)
  }

  /** The concrete state represents the abstract map `a`: each index is exactly one of free, stored
      and held, and it is held by the one thread that has it in its hands. */
  ghost predicate Represents(s: State, a: seq<Index>) {
    && |a| == |s.slots| && |s.slots| <= BITS * |s.words|
    && (forall i: nat :: i < |a| ==> (Test(s.words, i) <==> a[i] == Free) && s.slots[i] == PtrOf(a[i]))
    && (forall i: nat :: i < |a| && a[i].Stored? ==> a[i].p != 0)
    && (forall i: nat :: i < |a| && a[i].Held? ==> a[i].t < |s.threads|)
    && (forall t: nat :: t < |s.threads| ==> ThreadOk(s.threads[t], t, a))
  }

  lemma RepresentsShape(s: State, a: seq<Index>)
    requires Represents(s, a)
    ensures Shape(s)
  {
    forall t | 0 <= t < |s.threads| ensures PcInRange(s.threads[t].pc, |s.slots|) {
      assert ThreadOk(s.threads[t], t, a);
    }
  }

  /** A step changes the map only at indices its own thread gains or gives up. */
  ghost predicate OwnChange(a: seq<Index>, b: seq<Index>, t: nat) {
    && |b| == |a|
    && forall i: nat :: i < |a| && b[i] != a[i] ==>
         && (a[i].Held? ==> a[i].t == t) && (b[i].Held? ==> b[i].t == t) && (b[i].Stored? ==> b[i].p != 0)
  }

  lemma OneThread(s: State, s': State, a: seq<Index>, b: seq<Index>, t: nat)
    requires Represents(s, a) && OwnChange(a, b, t)
    requires t < |s.threads| == |s'.threads| && |s'.slots| == |s.slots| && |s'.words| == |s.words|
    requires forall u: nat :: u < |s.threads| && u != t ==> s'.threads[u] == s.threads[u]
    requires forall i: nat :: i < |a| ==> (Test(s'.words, i) <==> b[i] == Free) && s'.slots[i] == PtrOf(b[i])
    requires ThreadOk(s'.threads[t], t, b)
    ensures Represents(s', b)
  {
    forall u: nat | u < |s'.threads| ensures ThreadOk(s'.threads[u], u, b) {
      if u != t {
        assert ThreadOk(s.threads[u], u, a);
      }
    }
  }

  /** A thread whose holdings do not change. */
  lemma SameHolds(th: Thread, th': Thread, t: nat, a: seq<Index>)
    requires ThreadOk(th, t, a)
    requires PcInRange(th'.pc, |a|) && PcPtrs(th'.pc) && th'.held !! PcHold(th'.pc) && Holds(th') == Holds(th)
    ensures ThreadOk(th', t, a)
  {}

  /** A thread that gains index `i`. */
  lemma GainHold(th: Thread, th': Thread, t: nat, a: seq<Index>, i: nat)
    requires ThreadOk(th, t, a) && i < |a| && a[i] != Held(t)
    requires PcInRange(th'.pc, |a|) && PcPtrs(th'.pc) && th'.held !! PcHold(th'.pc) && Holds(th') == Holds(th) + {i}
    ensures ThreadOk(th', t, a[i := Held(t)])
  {}

  /** A thread that gives up index `i`. */
  lemma DropHold(th: Thread, th': Thread, t: nat, a: seq<Index>, i: nat, x: Index)
    requires ThreadOk(th, t, a) && i < |a| && !x.Held?
    requires PcInRange(th'.pc, |a|) && PcPtrs(th'.pc) && th'.held !! PcHold(th'.pc) && Holds(th') == Holds(th) - {i}
    ensures ThreadOk(th', t, a[i := x])
  {}

  /** The effect of the next step of thread `t` on the abstract map. */
  function ActOf(s: State, t: nat): Act
    requires t < |s.threads| && |s.slots| <= BITS * |s.words| && PcInRange(s.threads[t].pc, |s.slots|)
  {
    match s.threads[t].pc
    case PutReserve(p, min, i) => if Test(s.words, i) then Reserve(t, i) else Quiet
    case PutStore(p, i) => Store(t, i, p)
    case TakeXchg(i) => if s.slots[i] == 0 then Quiet else Grab(t, i)
    case TakeFree(i, got) => Release(t, i)
    case GrabXchg(i) => if s.slots[i] == 0 then Quiet else Grab(t, i)
    case BackStore(i, p) => Store(t, i, p)
    case SwapReserve(i, p) => if Test(s.words, i) then Reserve(t, i) else Quiet
    case SwapStore(i, p) => Store(t, i, p)
    case SwapXchg(i, p) => if s.slots[i] == 0 then Quiet else Grab(t, i)
    case SwapBackStore(i, p, got) => Store(t, i, p)
    case _ => Quiet
  }

  /** What is known of index `i` when a thread looks at it. */
  ghost predicate IndexOk(s: State, a: seq<Index>, i: nat) {
    && i < |a| == |s.slots| && |s.slots| <= BITS * |s.words|
    && (Test(s.words, i) <==> a[i] == Free) && s.slots[i] == PtrOf(a[i]) && (a[i].Stored? ==> a[i].p != 0)
  }

  predicate AtIndex(pc: Pc) { !pc.Idle? && !pc.PutScan? }

  lemma ActKind(s: State, t: nat)
    requires t < |s.threads| && |s.slots| <= BITS * |s.words| && PcInRange(s.threads[t].pc, |s.slots|)
    ensures var (act, pc) := (ActOf(s, t), s.threads[t].pc);
            && (act.Reserve? <==> (pc.PutReserve? || pc.SwapReserve?) && Test(s.words, pc.i))
            && (act.Grab? <==> Grabs(pc) && s.slots[pc.i] != 0)
            && (act.Store? <==> Stores(pc)) && (act.Store? ==> act.p == pc.p)
            && (act.Release? <==> pc.TakeFree?)
            && (!act.Quiet? ==> act.t == t && AtIndex(pc) && act.i == pc.i)
  {}

  lemma HoldKind(pc: Pc)
    ensures Stores(pc) || pc.BackReserve? || pc.SwapBackReserve? || pc.TakeFree? ==> PcHold(pc) == {pc.i}
    ensures Stores(pc) && PcPtrs(pc) ==> pc.p != 0
  {}

  lemma EnabledStep(s: State, t: nat, a: seq<Index>)
    requires t < |s.threads| && |s.slots| == |a| <= BITS * |s.words| && ThreadOk(s.threads[t], t, a) && !s.failed
    requires AtIndex(s.threads[t].pc) ==> IndexOk(s, a, s.threads[t].pc.i)
    ensures Enabled(a, ActOf(s, t)) && !Advance(s, t).failed
    ensures Clears(s.threads[t].pc) && !ActOf(s, t).Reserve? ==> a[s.threads[t].pc.i] != Free
    ensures Grabs(s.threads[t].pc) && !ActOf(s, t).Grab? ==> s.slots[s.threads[t].pc.i] == 0
  {
    var (th, pc) := (s.threads[t], s.threads[t].pc);
    ActKind(s, t);
    HoldKind(pc);
    hide ActOf, PcHold, PcPtrs, NextPc, Clear, Set;
    if Stores(pc) || pc.BackReserve? || pc.SwapBackReserve? || pc.TakeFree? {
      assert pc.i in Holds(th);
    }
  }

  /** What a step does to the holdings of its thread. */
  lemma NextHolds(s: State, t: nat)
    requires t < |s.threads| && |s.slots| <= BITS * |s.words| && PcInRange(s.threads[t].pc, |s.slots|)
    requires var th := s.threads[t]; PcPtrs(th.pc) && th.held !! PcHold(th.pc)
    ensures var (pc, pc', act) := (s.threads[t].pc, NextPc(s, s.threads[t].pc), ActOf(s, t));
            && PcInRange(pc', |s.slots|) && PcPtrs(pc')
            && (act.Quiet? ==> PcHold(pc') == PcHold(pc))
            && (act.Reserve? || (act.Grab? && !pc.GrabXchg?) ==> PcHold(pc) == {} && PcHold(pc') == {act.i})
            && (act.Grab? && pc.GrabXchg? ==> PcHold(pc) == {} && PcHold(pc') == {})
            && (act.Store? || act.Release? ==> PcHold(pc) == {act.i} && PcHold(pc') == {})
  {
    hide Test, Clear, Set;
  }

  lemma ThreadStep(s: State, t: nat, a: seq<Index>)
    requires t < |s.threads| && |s.slots| == |a| <= BITS * |s.words| && ThreadOk(s.threads[t], t, a)
    requires AtIndex(s.threads[t].pc) ==> IndexOk(s, a, s.threads[t].pc.i)
    requires Enabled(a, ActOf(s, t))
    ensures ThreadOk(Advance(s, t).threads[t], t, Apply(a, ActOf(s, t)))
  {
    var (th, pc) := (s.threads[t], s.threads[t].pc);
    var th' := Advance(s, t).threads[t];
    NextHolds(s, t);
    ActKind(s, t);
    if AtIndex(pc) && pc.i in th.held { assert pc.i in Holds(th); }
    hide ThreadOk, NextPc, PcHold, PcPtrs, ActOf, Clear, Set;
    match ActOf(s, t) {
      case Quiet => SameHolds(th, th', t, a);
      case Reserve(_, i) => GainHold(th, th', t, a, i);
      case Grab(_, i) => GainHold(th, th', t, a, i);
      case Store(_, i, p) => DropHold(th, th', t, a, i, Stored(p));
      case Release(_, i) => DropHold(th, th', t, a, i, Free);
    }
  }

  lemma MemoryStep(s: State, t: nat, a: seq<Index>)
    requires Represents(s, a) && t < |s.threads| && PcInRange(s.threads[t].pc, |s.slots|) && Enabled(a, ActOf(s, t))
    requires Clears(s.threads[t].pc) && !ActOf(s, t).Reserve? ==> a[s.threads[t].pc.i] != Free
    requires Grabs(s.threads[t].pc) && !ActOf(s, t).Grab? ==> s.slots[s.threads[t].pc.i] == 0
    ensures var (s', b) := (Advance(s, t), Apply(a, ActOf(s, t)));
            && |s'.slots| == |s.slots| && |s'.words| == |s.words| && |s'.threads| == |s.threads| && |b| == |a|
            && (forall u: nat :: u < |s.threads| && u != t ==> s'.threads[u] == s.threads[u])
            && (forall i: nat :: i < |a| ==> (Test(s'.words, i) <==> b[i] == Free) && s'.slots[i] == PtrOf(b[i]))
  {
    ActKind(s, t);
    hide ActOf, NextPc, Test, Clear, Set;
  }

  /** Every step of a call is a step of the abstract map, and no assertion fires. */
  lemma AdvanceSimulates(s: State, t: nat, a: seq<Index>)
    requires Represents(s, a) && t < |s.threads| && !s.failed
    ensures PcInRange(s.threads[t].pc, |s.slots|) && Enabled(a, ActOf(s, t))
    ensures Represents(Advance(s, t), Apply(a, ActOf(s, t))) && !Advance(s, t).failed
  {
    assert ThreadOk(s.threads[t], t, a);
    EnabledStep(s, t, a);
    ThreadStep(s, t, a);
    MemoryStep(s, t, a);
    ActKind(s, t);
    hide Advance, ActOf, Test, ThreadOk;
    OneThread(s, Advance(s, t), a, Apply(a, ActOf(s, t)), t);
  }

  lemma BeginSimulates(s: State, t: nat, op: Op, a: seq<Index>)
    requires Represents(s, a) && Legal(s, Start(t, op)) && !s.failed
    ensures Represents(Begin(s, t, op), a) && !Begin(s, t, op).failed
  {
    var (th, s') := (s.threads[t], Begin(s, t, op));
    assert ThreadOk(th, t, a);
    if op.CriticalPut? && InRange(s, op.idx) { assert op.idx as nat in Holds(th); }
    SameHolds(th, s'.threads[t], t, a);
    hide ThreadOk;
    OneThread(s, s', a, a, t);
  }

  // ----- where the entries are -----

  function Is(p: Ptr, x: Ptr): nat { if p == x then 1 else 0 }

  /** How often a thread carries entry `x` in the middle of a call. */
  function Carries(pc: Pc, x: Ptr): nat {
    match pc
    case PutScan(p, _, _) => Is(p, x)
    case PutReserve(p, _, _) => Is(p, x)
    case PutStore(p, _) => Is(p, x)
    case TakeFree(_, got) => Is(got, x)
    case BackReserve(_, p) => Is(p, x)
    case BackStore(_, p) => Is(p, x)
    case SwapReserve(_, p) => Is(p, x)
    case SwapStore(_, p) => Is(p, x)
    case SwapXchg(_, p) => Is(p, x)
    case SwapCheck(_, p) => Is(p, x)
    case SwapBackReserve(_, p, got) => Is(p, x) + Is(got, x)
    case SwapBackStore(_, p, got) => Is(p, x) + Is(got, x)
    case _ => 0
  }

  function AllCarry(ths: seq<Thread>, x: Ptr): nat {
    if ths == [] then 0 else Carries(ths[0].pc, x) + AllCarry(ths[1..], x)
  }

  function InSlots(slots: seq<Ptr>, x: Ptr): nat {
    if slots == [] then 0 else Is(slots[0], x) + InSlots(slots[1..], x)
  }

  lemma {:induction false} CarryUpdate(ths: seq<Thread>, t: nat, th: Thread, x: Ptr)
    requires t < |ths|
    ensures AllCarry(ths[t := th], x) + Carries(ths[t].pc, x) == AllCarry(ths, x) + Carries(th.pc, x)
  {
    if t > 0 {
      assert ths[t := th][1..] == ths[1..][t - 1 := th];
      CarryUpdate(ths[1..], t - 1, th, x);
    } else {
      assert ths[t := th][1..] == ths[1..];
    }
  }

  lemma {:induction false} SlotsUpdate(slots: seq<Ptr>, i: nat, p: Ptr, x: Ptr)
    requires i < |slots|
    ensures InSlots(slots[i := p], x) + Is(slots[i], x) == InSlots(slots, x) + Is(p, x)
  {
    if i > 0 {
      assert slots[i := p][1..] == slots[1..][i - 1 := p];
      SlotsUpdate(slots[1..], i - 1, p, x);
    } else {
      assert slots[i := p][1..] == slots[1..];
    }
  }

  ghost predicate Balanced(s: State, x: Ptr) {
    s.entered[x] == s.left[x] + s.refused[x] + InSlots(s.slots, x) + AllCarry(s.threads, x)
  }

  /** Every entry handed in has been handed out, turned away, or is in exactly one place. */
  ghost predicate Conserved(s: State) {
    forall x: Ptr :: x != 0 ==> Balanced(s, x)
  }

  /** One operation moves entries between slot, thread and caller without losing or copying any. */
  lemma MovesEntries(s: State, pc: Pc, x: Ptr)
    requires |s.slots| <= BITS * |s.words| && PcInRange(pc, |s.slots|) && x != 0
    requires Stores(pc) ==> s.slots[pc.i] == 0
    ensures Carries(pc, x) + (if Stores(pc) || Grabs(pc) then Is(s.slots[pc.i], x) else 0)
         == Carries(NextPc(s, pc), x) + (if Stores(pc) then Is(pc.p, x) else 0)
            + Is(Returned(s, pc), x) + (if pc.PutScan? && pc.i == |s.slots| then Is(pc.p, x) else 0)
  {
    hide Test;
  }

  lemma AdvanceConserves(s: State, t: nat, a: seq<Index>)
    requires Represents(s, a) && t < |s.threads| && !s.failed && Conserved(s)
    ensures PcInRange(s.threads[t].pc, |s.slots|) && Conserved(Advance(s, t))
  {
    var pc := s.threads[t].pc;
    assert ThreadOk(s.threads[t], t, a);
    EnabledStep(s, t, a);
    hide NextPc, Carries, Returned, Represents, InSlots, AllCarry, Clear, Set, Test;
    forall x: Ptr | x != 0 ensures Balanced(Advance(s, t), x) {
      assert Balanced(s, x);
      MovesEntries(s, pc, x);
      CarryUpdate(s.threads, t, Advance(s, t).threads[t], x);
      if Stores(pc) {
        SlotsUpdate(s.slots, pc.i, pc.p, x);
      } else if Grabs(pc) {
        SlotsUpdate(s.slots, pc.i, 0, x);
      }
    }
  }

  lemma BeginConserves(s: State, t: nat, op: Op)
    requires Legal(s, Start(t, op)) && Conserved(s)
    ensures Conserved(Begin(s, t, op))
  {
    hide InSlots, AllCarry;
    var s' := Begin(s, t, op);
    forall x: Ptr | x != 0 ensures Balanced(s', x) {
      assert Balanced(s, x);
      CarryUpdate(s.threads, t, s'.threads[t], x);
      assert s'.threads == s.threads[t := s'.threads[t]];
    }
  }

  // ----- whole runs -----

  ghost predicate LegalRun(s: State, ls: seq<Label>)
    decreases ls
  {
    ls != [] ==> Shape(s) && Legal(s, ls[0]) && LegalRun(Step(s, ls[0]), ls[1..])
  }

  ghost function Exec(s: State, ls: seq<Label>): State
    requires LegalRun(s, ls)
    decreases ls
  {
    if ls == [] then s else Exec(Step(s, ls[0]), ls[1..])
  }

  ghost function StepAct(s: State, l: Label): Act
    requires Shape(s) && Legal(s, l)
  {
    if l.Run? then ActOf(s, l.t) else Quiet
  }

  /** What a run does to the abstract map, step by step. */
  ghost function Acts(s: State, ls: seq<Label>): seq<Act>
    requires LegalRun(s, ls)
    decreases ls
  {
    if ls == [] then [] else [StepAct(s, ls[0])] + Acts(Step(s, ls[0]), ls[1..])
  }

  ghost predicate AllEnabled(a: seq<Index>, acts: seq<Act>)
    decreases acts
  {
    acts != [] ==> Enabled(a, acts[0]) && AllEnabled(Apply(a, acts[0]), acts[1..])
  }

  ghost function ApplyAll(a: seq<Index>, acts: seq<Act>): seq<Index>
    requires AllEnabled(a, acts)
    decreases acts
  {
    if acts == [] then a else ApplyAll(Apply(a, acts[0]), acts[1..])
  }

  /** Every run of the step system is a run of the abstract map, in which no assertion fires and no
      entry is lost or copied. */
  lemma {:induction false} RunSimulates(s: State, a: seq<Index>, ls: seq<Label>)
    requires Represents(s, a) && !s.failed && Conserved(s) && LegalRun(s, ls)
    ensures AllEnabled(a, Acts(s, ls))
    ensures Represents(Exec(s, ls), ApplyAll(a, Acts(s, ls))) && !Exec(s, ls).failed && Conserved(Exec(s, ls))
    decreases ls
  {
    if ls != [] {
      var (l, s1) := (ls[0], Step(s, ls[0]));
      RepresentsShape(s, a);
      StepSimulates(s, a, l);
      var act := StepAct(s, l);
      hide Represents, Conserved, Step, StepAct, Shape, Legal;
      RunSimulates(s1, Apply(a, act), ls[1..]);
      assert Acts(s, ls)[1..] == Acts(s1, ls[1..]);
    }
  }

  lemma StepSimulates(s: State, a: seq<Index>, l: Label)
    requires Represents(s, a) && !s.failed && Conserved(s) && Shape(s) && Legal(s, l)
    ensures Enabled(a, StepAct(s, l))
    ensures Represents(Step(s, l), Apply(a, StepAct(s, l))) && !Step(s, l).failed && Conserved(Step(s, l))
  {
    match l
    case Start(t, op) =>
      BeginSimulates(s, t, op, a);
      BeginConserves(s, t, op);
    case Run(t) =>
      AdvanceSimulates(s, t, a);
      AdvanceConserves(s, t, a);
  }

  /** Word `w` of a bitmap filled for `n` free indices. */
  function FullWord(n: nat, w: nat): Word { set b: nat | b < BITS && BelowSize(n, w, b) }

  predicate BelowSize(n: nat, w: nat, b: nat) { BITS * w + b < n }

  /** A map of `n` free indices and `k` idle threads. */
  function Initial(n: nat, k: nat): State {
    State(seq((n + BITS - 1) / BITS, w requires 0 <= w => FullWord(n, w)), seq(n, _ => 0),
          seq(k, _ => Thread(Idle, {})), false, multiset{}, multiset{}, multiset{})
  }

  function AllFree(n: nat): seq<Index> { seq(n, _ => Free) }

  lemma {:induction false} NoEntries(slots: seq<Ptr>, ths: seq<Thread>, x: Ptr)
    requires x != 0 && (forall i :: 0 <= i < |slots| ==> slots[i] == 0)
             && (forall t :: 0 <= t < |ths| ==> ths[t].pc == Idle)
    ensures InSlots(slots, x) == 0 && AllCarry(ths, x) == 0
    decreases |slots| + |ths|
  {
    if slots != [] {
      NoEntries(slots[1..], ths, x);
    } else if ths != [] {
      NoEntries(slots, ths[1..], x);
    }
  }

  lemma InitialRepresents(n: nat, k: nat)
    ensures Represents(Initial(n, k), AllFree(n)) && Conserved(Initial(n, k))
  {
    var s := Initial(n, k);
    forall x: Ptr | x != 0 ensures Balanced(s, x) {
      NoEntries(s.slots, s.threads, x);
    }
    assert n <= BITS * |s.words|;
    forall i: nat | i < n ensures Test(s.words, i) {
      assert BelowSize(n, i / BITS, i % BITS);
    }
  }

  function Count(acts: seq<Act>, i: nat, store: bool): nat {
    if acts == [] then 0
    else
      var hit := (if store then acts[0].Store? else acts[0].Grab?) && acts[0].i == i;
      (if hit then 1 else 0) + Count(acts[1..], i, store)
  }

  function Bit(b: bool): nat { if b then 1 else 0 }

  /** From one index entries are stored and grabbed in turn. */
  lemma {:induction false} TakenAtMostOnce(a: seq<Index>, acts: seq<Act>, i: nat)
    requires AllEnabled(a, acts) && i < |a|
    ensures |ApplyAll(a, acts)| == |a|
    ensures Bit(a[i].Stored?) + Count(acts, i, true) == Count(acts, i, false) + Bit(ApplyAll(a, acts)[i].Stored?)
    decreases acts
  {
    if acts != [] { TakenAtMostOnce(Apply(a, acts[0]), acts[1..], i); }
  }

  /** The main result, for every table size, every number of threads and every interleaving: each index
      is free, stored or held by one thread, no assertion fires, entries are conserved, and every entry
      stored at an index has left it through exactly one taker or is still there. */
  lemma Safety(n: nat, k: nat, ls: seq<Label>)
    requires LegalRun(Initial(n, k), ls)
    ensures var (s, acts) := (Exec(Initial(n, k), ls), Acts(Initial(n, k), ls));
            && AllEnabled(AllFree(n), acts) && Represents(s, ApplyAll(AllFree(n), acts))
            && !s.failed && Conserved(s) && |ApplyAll(AllFree(n), acts)| == n
            && forall i: nat :: i < n ==>
                 Count(acts, i, true) == Count(acts, i, false) + Bit(ApplyAll(AllFree(n), acts)[i].Stored?)
  {
    hide Represents, Conserved, Initial, Exec, Acts, LegalRun;
    InitialRepresents(n, k);
    InitialRuns(n, k);
    RunSimulates(Initial(n, k), AllFree(n), ls);
    var acts := Acts(Initial(n, k), ls);
    ApplyAllLength(AllFree(n), acts);
    forall i: nat | i < n
      ensures i < |ApplyAll(AllFree(n), acts)|
              && Count(acts, i, true) == Count(acts, i, false) + Bit(ApplyAll(AllFree(n), acts)[i].Stored?)
    {
      TakenAtMostOnce(AllFree(n), acts, i);
    }
  }

  lemma InitialRuns(n: nat, k: nat)
    ensures !Initial(n, k).failed
  {}

  lemma {:induction false} ApplyAllLength(a: seq<Index>, acts: seq<Act>)
    requires AllEnabled(a, acts)
    ensures |ApplyAll(a, acts)| == |a|
    decreases acts
  {
    if acts != [] { ApplyAllLength(Apply(a, acts[0]), acts[1..]); }
  }

  /** An index in the hands of a thread is in no other thread's hands, is not free and has no entry in its slot;
      the abstract map is a function of the concrete state. */
  lemma HeldByOne(s: State, a: seq<Index>, b: seq<Index>, t: nat, u: nat, i: nat)
    requires Represents(s, a) && Represents(s, b) && t < |s.threads| && u < |s.threads| && i in Holds(s.threads[t])
    ensures i < |s.slots| && s.slots[i] == 0 && !Test(s.words, i)
    ensures i in Holds(s.threads[u]) ==> t == u
    ensures a == b
  {
    assert ThreadOk(s.threads[t], t, a) && ThreadOk(s.threads[u], u, a);
    SameMap(s, a, b);
  }

  lemma SameMap(s: State, a: seq<Index>, b: seq<Index>)
    requires Represents(s, a) && Represents(s, b)
    ensures a == b
  {
    forall i: nat | i < |a| ensures a[i] == b[i] {
      if a[i].Held? { assert ThreadOk(s.threads[a[i].t], a[i].t, a) && ThreadOk(s.threads[a[i].t], a[i].t, b); }
      if b[i].Held? { assert ThreadOk(s.threads[b[i].t], b[i].t, a) && ThreadOk(s.threads[b[i].t], b[i].t, b); }
    }
  }

  /** When every call has returned and nothing is held, an index is marked used exactly when its slot has an entry. */
  lemma Quiescent(s: State, a: seq<Index>, i: nat)
    requires Represents(s, a) && i < |s.slots|
    requires forall t: nat :: t < |s.threads| ==> s.threads[t] == Thread(Idle, {})
    ensures Test(s.words, i) <==> s.slots[i] == 0
  {
    assert a[i].Held? ==> i in Holds(s.threads[a[i].t]);
  }
}
