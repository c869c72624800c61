/** What the calls on the descriptor map answer: every answer of every call in every run is accounted for
    by the abstract map at the call's own steps. */
module FmapCalls {
  import opened Basics
  import opened Bitmap
  import opened Fmap

  /** A null pointer; an entry; an index; the map is full; success; a refused index; success, with the
      previous entry stored for the caller unless nothing was stored. `NoReply` is for an operation behind
      which no call returns. */
  datatype Reply =
    | Null
    | Entry(p: Ptr)
    | At(i: nat)
    | Full
    | Done
    | Refused
    | Swapped(prev: Option<Ptr>)
    | NoReply

  /** What a call returns if the operation at `pc` is its last. */
  function Answer(s: State, pc: Pc): Reply
    requires PcInRange(pc, |s.slots|)
  {
    match pc
    case PutScan(_, _, _) => Full
    case PutStore(_, i) => At(i)
    case TakeCheck(_) => Null
    case TakeFree(_, got) => Entry(got)
    case GrabXchg(i) => Entry(s.slots[i])
    case GrabCheck(_) => Null
    case BackStore(_, _) => Done
    case SwapStore(_, _) => Swapped(None)
    case SwapBackStore(_, _, got) => Swapped(Some(got))
    case LookRead(i) => Entry(s.slots[i])
    case LookCheck(_) => Null
    case _ => NoReply
  }

  /** What a call returns that ends before its first operation. */
  function AtOnce(op: Op): Reply {
    match op
    case Put(_, _) => Full
    case CriticalPut(_, _) => Refused
    case Xchg(_, _) => Refused
    case _ => Null
  }

  // ----- what happened -----

  /** One step of a call: the abstract map before it, and what it did to the map. */
  datatype Own = Own(before: seq<Index>, act: Act)

  /** A call and its own steps so far. */
  datatype Call = Call(op: Op, steps: seq<Own>)

  datatype Finished = Finished(t: nat, call: Call, reply: Reply)

  /** The call each thread is in, if it is in one, and the calls that have returned. */
  datatype History = History(open: seq<Call>, done: seq<Finished>)

  ghost function Track(s: State, a: seq<Index>, h: History, l: Label): (h': History)
    requires Shape(s) && Legal(s, l) && |h.open| == |s.threads|
    ensures |h'.open| == |h.open|
  {
    match l
    case Start(t, op) =>
      var call := Call(op, []);
      if Begin(s, t, op).threads[t].pc.Idle? then h.(done := h.done + [Finished(t, call, AtOnce(op))])
      else h.(open := h.open[t := call])
    case Run(t) =>
      var (pc, call) := (s.threads[t].pc, Call(h.open[t].op, h.open[t].steps + [Own(a, ActOf(s, t))]));
      if NextPc(s, pc).Idle? then h.(done := h.done + [Finished(t, call, Answer(s, pc))])
      else h.(open := h.open[t := call])
  }

  ghost function TrackAll(s: State, a: seq<Index>, h: History, ls: seq<Label>): History
    requires LegalRun(s, ls) && AllEnabled(a, Acts(s, ls)) && |h.open| == |s.threads|
    decreases ls
  {
    if ls == [] then h
    else
      assert Acts(s, ls)[1..] == Acts(Step(s, ls[0]), ls[1..]);
      TrackAll(Step(s, ls[0]), Apply(a, StepAct(s, ls[0])), Track(s, a, h, ls[0]), ls[1..])
  }

  // ----- what an answer means -----

  /** The steps that changed the map. */
  function Deeds(steps: seq<Own>): seq<Own> {
    if steps == [] then []
    else
      var (front, last) := (Deeds(steps[..|steps| - 1]), steps[|steps| - 1]);
      if last.act.Quiet? then front else front + [last]
  }

  ghost predicate LastFound(steps: seq<Own>, i: int, x: Index) {
    steps != [] && 0 <= i < |steps[|steps| - 1].before| && steps[|steps| - 1].before[i] == x
  }

  /** The step that took entry `p` out of index `i`. */
  predicate Removed(o: Own, t: nat, i: int, p: Ptr) {
    0 <= i < |o.before| && o.before[i] == Stored(p) && o.act == Grab(t, i)
  }

  /** Step `d + j` found index `j` not free. */
  predicate FoundUsed(steps: seq<Own>, d: int, j: nat) {
    0 <= d + j < |steps| && j < |steps[d + j].before| && steps[d + j].before[j] != Free
  }

  ghost predicate FoundAllUsed(steps: seq<Own>, d: int, min: nat, i: int) {
    forall j: nat :: min <= j < i ==> FoundUsed(steps, d, j)
  }

  /** The steps before step `e` found the indices from `min` to `i` not free, one after the other. */
  ghost predicate Scanned(steps: seq<Own>, e: int, min: nat, i: int) { FoundAllUsed(steps, e - i, min, i) }

  /** What call and answer of thread `t` on a map of `n` indices have to do with each other. A call that
      returns nothing has found its index free at its last step, or the index is out of range. A take and an
      exchange return the entry that their own step removed. A put stores at an index not below its bound,
      having found all between in use, and is refused after a scan of all from the bound on. */
  ghost predicate Right(n: nat, t: nat, call: Call, reply: Reply) {
    var (steps, deeds) := (call.steps, Deeds(call.steps));
    match call.op
    case Take(idx) =>
      (match reply
       case Null => deeds == [] && (0 <= idx < n ==> LastFound(steps, idx, Free))
       case Entry(p) => |deeds| == 2 && Removed(deeds[0], t, idx, p) && deeds[1].act == Release(t, idx)
       case _ => false)
    case CriticalTake(idx) =>
      (match reply
       case Null => deeds == [] && (0 <= idx < n ==> LastFound(steps, idx, Free))
       case Entry(p) => |deeds| == 1 && Removed(deeds[0], t, idx, p)
       case _ => false)
    case Lookup(idx) =>
      (match reply
       case Null => deeds == [] && (0 <= idx < n ==> LastFound(steps, idx, Free))
       case Entry(p) => deeds == [] && LastFound(steps, idx, Stored(p))
       case _ => false)
    case CriticalPut(idx, p) =>
      (match reply
       case Refused => deeds == [] && !(0 <= idx < n)
       case Done => |deeds| == 1 && 0 <= idx < n && deeds[0].act == Store(t, idx, p)
       case _ => false)
    case Xchg(idx, p) =>
      (match reply
       case Refused => deeds == [] && !(0 <= idx < n)
       case Swapped(prev) =>
         && |deeds| == 2 && 0 <= idx < n && deeds[1].act == Store(t, idx, p)
         && (if prev.Some? then Removed(deeds[0], t, idx, prev.v) else deeds[0].act == Reserve(t, idx))
       case _ => false)
    case Put(p, min) =>
      (match reply
       case Full => deeds == [] && (0 <= min < n ==> Scanned(steps, |steps| - 1, min, n))
       case At(i) =>
         && |deeds| == 2 && 0 <= min <= i < n && Scanned(steps, |steps| - 3, min, i)
         && deeds[0].act == Reserve(t, i) && deeds[1].act == Store(t, i, p)
       case _ => false)
  }

  // ----- why it holds -----

  /** What a thread in the middle of a call has done so far. */
  ghost predicate Midway(n: nat, t: nat, pc: Pc, call: Call) {
    var (op, steps, deeds) := (call.op, call.steps, Deeds(call.steps));
    match pc
    case Idle => true
    case PutScan(p, min, i) => op == Put(p, min) && deeds == [] && Scanned(steps, |steps|, min, i)
    case PutReserve(p, min, i) => op == Put(p, min) && deeds == [] && Scanned(steps, |steps| - 1, min, i)
    case PutStore(p, i) =>
      && op.Put? && op.p == p && 0 <= op.min <= i && Scanned(steps, |steps| - 2, op.min, i)
      && |deeds| == 1 && deeds[0].act == Reserve(t, i)
    case TakeCheck(i) => op == Take(i) && deeds == []
    case TakeXchg(i) => op == Take(i) && deeds == []
    case TakeFree(i, got) => op == Take(i) && |deeds| == 1 && Removed(deeds[0], t, i, got)
    case GrabXchg(i) => op == CriticalTake(i) && deeds == []
    case GrabCheck(i) => op == CriticalTake(i) && deeds == []
    case BackReserve(i, p) => op == CriticalPut(i, p) && deeds == []
    case BackStore(i, p) => op == CriticalPut(i, p) && deeds == []
    case SwapReserve(i, p) => op == Xchg(i, p) && deeds == []
    case SwapStore(i, p) => op == Xchg(i, p) && |deeds| == 1 && deeds[0].act == Reserve(t, i)
    case SwapXchg(i, p) => op == Xchg(i, p) && deeds == []
    case SwapCheck(i, p) => op == Xchg(i, p) && deeds == []
    case SwapBackReserve(i, p, got) => op == Xchg(i, p) && |deeds| == 1 && Removed(deeds[0], t, i, got)
    case SwapBackStore(i, p, got) => op == Xchg(i, p) && |deeds| == 1 && Removed(deeds[0], t, i, got)
    case LookRead(i) => op == Lookup(i) && deeds == []
    case LookCheck(i) => op == Lookup(i) && deeds == []
  }

  lemma DeedsNext(steps: seq<Own>, o: Own)
    ensures Deeds(steps + [o]) == if o.act.Quiet? then Deeds(steps) else Deeds(steps) + [o]
  {
    assert (steps + [o])[..|steps|] == steps;
  }

  lemma ScannedNext(steps: seq<Own>, e: int, min: nat, i: int, o: Own)
    requires Scanned(steps, e, min, i)
    ensures Scanned(steps + [o], e, min, i)
    ensures e == |steps| && 0 <= i < |o.before| && o.before[i] != Free ==> Scanned(steps + [o], e + 1, min, i + 1)
  {
    var d := e - i;
    forall j: nat | min <= j < i ensures FoundUsed(steps + [o], d, j) {
      assert FoundUsed(steps, d, j);
    }
  }

  /** One step of a put that is still looking for an index. */
  lemma PutMidway(n: nat, t: nat, s: State, a: seq<Index>, call: Call)
    requires t < |s.threads| && |a| == |s.slots| == n <= BITS * |s.words| && PcInRange(s.threads[t].pc, n)
    requires var pc := s.threads[t].pc; pc.PutScan? || pc.PutReserve? || pc.PutStore?
    requires var pc := s.threads[t].pc; pc.i < n ==> (Test(s.words, pc.i) <==> a[pc.i] == Free)
    requires Midway(n, t, s.threads[t].pc, call)
    ensures var (pc, call') := (s.threads[t].pc, Call(call.op, call.steps + [Own(a, ActOf(s, t))]));
            if NextPc(s, pc).Idle? then Right(n, t, call', Answer(s, pc)) else Midway(n, t, NextPc(s, pc), call')
  {
    hide Deeds, Scanned, Test;
    var (pc, o) := (s.threads[t].pc, Own(a, ActOf(s, t)));
    DeedsNext(call.steps, o);
    match pc {
      case PutScan(p, min, i) => ScannedNext(call.steps, |call.steps|, min, i, o);
      case PutReserve(p, min, i) =>
        ScannedNext(call.steps, |call.steps| - 1, min, i, o);
        NothingScanned(call.steps + [o], min);
      case PutStore(p, i) => ScannedNext(call.steps, |call.steps| - 2, call.op.min, i, o);
    }
  }

  lemma NothingScanned(steps: seq<Own>, min: nat)
    ensures Scanned(steps, |steps|, min, min)
  {}

  /** One step of any other call. */
  lemma OtherMidway(n: nat, t: nat, s: State, a: seq<Index>, call: Call)
    requires t < |s.threads| && |a| == |s.slots| == n <= BITS * |s.words| && PcInRange(s.threads[t].pc, n)
    requires var pc := s.threads[t].pc; !pc.Idle? && !pc.PutScan? && !pc.PutReserve? && !pc.PutStore?
    requires IndexOk(s, a, s.threads[t].pc.i)
    requires Midway(n, t, s.threads[t].pc, call)
    ensures var (pc, call') := (s.threads[t].pc, Call(call.op, call.steps + [Own(a, ActOf(s, t))]));
            if NextPc(s, pc).Idle? then Right(n, t, call', Answer(s, pc)) else Midway(n, t, NextPc(s, pc), call')
  {
    hide Deeds, Scanned, Test;
    DeedsNext(call.steps, Own(a, ActOf(s, t)));
  }

  ghost predicate AllMidway(s: State, h: History) {
    |h.open| == |s.threads| && forall t: nat :: t < |s.threads| ==> Midway(|s.slots|, t, s.threads[t].pc, h.open[t])
  }

  ghost predicate AllRight(n: nat, h: History) {
    forall k :: 0 <= k < |h.done| ==> Right(n, h.done[k].t, h.done[k].call, h.done[k].reply)
  }

  /** One step of a call in a state that represents a map. */
  lemma CallMidway(s: State, a: seq<Index>, t: nat, call: Call)
    requires Represents(s, a) && t < |s.threads| && !s.threads[t].pc.Idle?
    requires Midway(|s.slots|, t, s.threads[t].pc, call)
    ensures PcInRange(s.threads[t].pc, |s.slots|) && |s.slots| <= BITS * |s.words|
    ensures var (n, pc, call') := (|s.slots|, s.threads[t].pc, Call(call.op, call.steps + [Own(a, ActOf(s, t))]));
            if NextPc(s, pc).Idle? then Right(n, t, call', Answer(s, pc)) else Midway(n, t, NextPc(s, pc), call')
  {
    hide Midway, Right, NextPc, ActOf, Answer, Test;
    var pc := s.threads[t].pc;
    assert ThreadOk(s.threads[t], t, a);
    if pc.PutScan? || pc.PutReserve? || pc.PutStore? {
      PutMidway(|s.slots|, t, s, a, call);
    } else {
      OtherMidway(|s.slots|, t, s, a, call);
    }
  }

  lemma RunMidway(s: State, a: seq<Index>, h: History, t: nat)
    requires Represents(s, a) && Shape(s) && Legal(s, Run(t)) && AllMidway(s, h) && AllRight(|s.slots|, h)
    ensures AllMidway(Advance(s, t), Track(s, a, h, Run(t))) && AllRight(|s.slots|, Track(s, a, h, Run(t)))
  {
    hide Midway, Right, Represents, NextPc, ActOf, Answer, Clear, Set, Test;
    CallMidway(s, a, t, h.open[t]);
    IdleMidway(|s.slots|, t, h.open[t]);
  }

  lemma IdleMidway(n: nat, t: nat, call: Call)
    ensures Midway(n, t, Idle, call)
  {}

  /** The first state of a call, or its answer. */
  lemma CallStart(s: State, t: nat, op: Op)
    requires t < |s.threads| && s.threads[t].pc.Idle?
    ensures var (s', call) := (Begin(s, t, op), Call(op, []));
            && s'.slots == s.slots && |s'.threads| == |s.threads|
            && (forall u: nat :: u < |s.threads| && u != t ==> s'.threads[u] == s.threads[u])
            && if s'.threads[t].pc.Idle? then Right(|s.slots|, t, call, AtOnce(op))
               else Midway(|s.slots|, t, s'.threads[t].pc, call)
  {
    hide Scanned;
    if op.Put? && op.min >= 0 { NothingScanned([], op.min); }
  }

  lemma StartMidway(s: State, a: seq<Index>, h: History, t: nat, op: Op)
    requires Shape(s) && Legal(s, Start(t, op)) && AllMidway(s, h) && AllRight(|s.slots|, h)
    ensures AllMidway(Begin(s, t, op), Track(s, a, h, Start(t, op)))
    ensures AllRight(|s.slots|, Track(s, a, h, Start(t, op)))
  {
    hide Midway, Right, Begin, Shape;
    CallStart(s, t, op);
    IdleMidway(|s.slots|, t, h.open[t]);
  }

  lemma {:induction false} RunRight(s: State, a: seq<Index>, h: History, ls: seq<Label>)
    requires Represents(s, a) && !s.failed && Conserved(s) && LegalRun(s, ls) && AllEnabled(a, Acts(s, ls))
    requires AllMidway(s, h) && AllRight(|s.slots|, h)
    ensures AllRight(|s.slots|, TrackAll(s, a, h, ls))
    decreases ls
  {
    if ls != [] {
      var l := ls[0];
      RepresentsShape(s, a);
      StepSimulates(s, a, l);
      var (s1, a1, h1) := (Step(s, l), Apply(a, StepAct(s, l)), Track(s, a, h, l));
      match l {
        case Start(t, op) => StartMidway(s, a, h, t, op);
        case Run(t) => RunMidway(s, a, h, t);
      }
      SameLength(s, a, s1, a1);
      assert Acts(s, ls)[1..] == Acts(s1, ls[1..]);
      hide Represents, Conserved, AllMidway, AllRight, Step, StepAct, Track, Shape, Legal, Apply;
      RunRight(s1, a1, h1, ls[1..]);
    }
  }

  lemma SameLength(s: State, a: seq<Index>, s': State, a': seq<Index>)
    requires Represents(s, a) && Represents(s', a') && |a'| == |a|
    ensures |s'.slots| == |s.slots|
  {}

  function NoCalls(k: nat): History { History(seq(k, _ => Call(Take(-1), [])), []) }

  /** For every size of the map, every number of threads and every interleaving, every call that has
      returned has answered right. */
  lemma AnswersRight(n: nat, k: nat, ls: seq<Label>)
    requires LegalRun(Initial(n, k), ls)
    ensures AllEnabled(AllFree(n), Acts(Initial(n, k), ls))
    ensures AllRight(n, TrackAll(Initial(n, k), AllFree(n), NoCalls(k), ls))
  {
    var s := Initial(n, k);
    InitialRepresents(n, k);
    InitialRuns(n, k);
    assert |s.slots| == n && AllMidway(s, NoCalls(k)) && AllRight(n, NoCalls(k));
    hide Represents, Conserved, Initial, Exec, Acts, LegalRun, AllMidway, AllRight, NoCalls;
    RunSimulates(s, AllFree(n), ls);
    RunRight(s, AllFree(n), NoCalls(k), ls);
  }
}
