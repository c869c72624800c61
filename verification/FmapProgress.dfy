/** Calls on the descriptor map come to an end: from every state a thread that runs alone finishes its call
    within a known number of steps, unless it waits for an index that is in somebody's hands. */
module FmapProgress {
  import opened Bitmap
  import opened Fmap

  /** The operations of a call that waits as long as its index is held. */
  predicate Waits(pc: Pc) {
    || pc.TakeCheck? || pc.TakeXchg? || pc.GrabXchg? || pc.GrabCheck? || pc.LookRead? || pc.LookCheck?
    || pc.SwapReserve? || pc.SwapXchg? || pc.SwapCheck?
  }

  predicate Unhindered(pc: Pc, a: seq<Index>) { Waits(pc) ==> pc.i < |a| && !a[pc.i].Held? }

  /** How many steps are left. */
  function Work(pc: Pc, a: seq<Index>): nat
    requires PcInRange(pc, |a|)
  {
    match pc
    case Idle => 0
    case PutScan(_, _, i) => |a| - i + 3
    case PutReserve(_, min, i) => if a[i] == Free then 2 else |a| - min + 4
    case PutStore(_, _) => 1
    case TakeCheck(i) => if a[i] == Free then 1 else 3
    case TakeXchg(_) => 2
    case TakeFree(_, _) => 1
    case GrabXchg(i) => if a[i] == Free then 2 else 1
    case GrabCheck(i) => if a[i] == Free then 1 else 2
    case BackReserve(_, _) => 2
    case BackStore(_, _) => 1
    case SwapReserve(i, _) => if a[i] == Free then 2 else 4
    case SwapStore(_, _) => 1
    case SwapXchg(i, _) => if a[i] == Free then 4 else 3
    case SwapCheck(i, _) => if a[i] == Free then 3 else 4
    case SwapBackReserve(_, _, _) => 2
    case SwapBackStore(_, _, _) => 1
    case LookRead(i) => if a[i] == Free then 2 else 1
    case LookCheck(i) => if a[i] == Free then 1 else 2
  }

  /** No call needs more than one pass over the map and four steps. */
  lemma WorkBound(pc: Pc, a: seq<Index>)
    requires PcInRange(pc, |a|)
    ensures Work(pc, a) <= |a| + 4
  {}

  /** Each step of a thread that nothing hinders brings it nearer to the end. */
  lemma StepShrinks(s: State, a: seq<Index>, t: nat)
    requires t < |s.threads| && |a| == |s.slots| <= BITS * |s.words| && PcInRange(s.threads[t].pc, |a|)
    requires var pc := s.threads[t].pc; !pc.Idle? && Unhindered(pc, a) && (pc.i < |a| ==> IndexOk(s, a, pc.i))
    requires Enabled(a, ActOf(s, t))
    ensures var (pc', a') := (NextPc(s, s.threads[t].pc), Apply(a, ActOf(s, t)));
            PcInRange(pc', |a'|) && Unhindered(pc', a') && Work(pc', a') < Work(s.threads[t].pc, a)
  {
    hide Test;
  }

  /** And while its index is in somebody's hands a call that waits for it goes on waiting, so that the
      condition is exact: a critical take locks its index. */
  lemma HeldWaits(s: State, a: seq<Index>, t: nat)
    requires Represents(s, a) && t < |s.threads| && Waits(s.threads[t].pc) && !Unhindered(s.threads[t].pc, a)
    ensures PcInRange(s.threads[t].pc, |s.slots|)
    ensures var (pc, pc') := (s.threads[t].pc, NextPc(s, s.threads[t].pc));
            ActOf(s, t).Quiet? && Waits(pc') && pc'.i == pc.i && !Unhindered(pc', a)
  {
    assert ThreadOk(s.threads[t], t, a);
    hide Test, ThreadOk;
  }

  /** `k` steps of one thread. */
  function Alone(t: nat, k: nat): seq<Label> { seq(k, _ => Run(t)) }

  lemma AloneStep(s: State, a: seq<Index>, t: nat)
    requires Represents(s, a) && !s.failed && t < |s.threads| && !s.threads[t].pc.Idle?
    requires Unhindered(s.threads[t].pc, a)
    ensures PcInRange(s.threads[t].pc, |a|) && Enabled(a, ActOf(s, t))
    ensures var (s', a') := (Advance(s, t), Apply(a, ActOf(s, t)));
            && Represents(s', a') && !s'.failed && t < |s'.threads| && |a'| == |a|
            && PcInRange(s'.threads[t].pc, |a'|) && Unhindered(s'.threads[t].pc, a')
            && Work(s'.threads[t].pc, a') < Work(s.threads[t].pc, a)
  {
    hide NextPc, ActOf, Work, Test, Clear, Set, Unhindered;
    AdvanceSimulates(s, t, a);
    assert ThreadOk(s.threads[t], t, a);
    StepShrinks(s, a, t);
  }

  /** From every state that a run can reach, a call that nothing hinders is at its end after that many steps
      of its thread, or fewer. */
  lemma {:induction false} AloneEnds(s: State, a: seq<Index>, t: nat) returns (k: nat)
    requires Represents(s, a) && !s.failed && t < |s.threads| && PcInRange(s.threads[t].pc, |a|)
    requires Unhindered(s.threads[t].pc, a)
    ensures k <= Work(s.threads[t].pc, a) && LegalRun(s, Alone(t, k))
    ensures t < |Exec(s, Alone(t, k)).threads| && Exec(s, Alone(t, k)).threads[t].pc.Idle?
    decreases Work(s.threads[t].pc, a)
  {
    if s.threads[t].pc.Idle? {
      k := 0;
    } else {
      AloneStep(s, a, t);
      RepresentsShape(s, a);
      var k' := AloneEnds(Advance(s, t), Apply(a, ActOf(s, t)), t);
      k := k' + 1;
      assert Alone(t, k)[0] == Run(t) && Alone(t, k)[1..] == Alone(t, k');
      hide Represents, Work, Advance, ActOf, Shape;
    }
  }

  /** So in every run from the initial map. */
  lemma CallsEnd(n: nat, k: nat, ls: seq<Label>, t: nat) returns (more: nat)
    requires LegalRun(Initial(n, k), ls) && t < |Exec(Initial(n, k), ls).threads|
    requires var (s, acts) := (Exec(Initial(n, k), ls), Acts(Initial(n, k), ls));
             AllEnabled(AllFree(n), acts) && Unhindered(s.threads[t].pc, ApplyAll(AllFree(n), acts))
    ensures more <= n + 4
    ensures var s := Exec(Initial(n, k), ls);
            && LegalRun(s, Alone(t, more)) && t < |Exec(s, Alone(t, more)).threads|
            && Exec(s, Alone(t, more)).threads[t].pc.Idle?
  {
    hide LegalRun, Exec, Acts, Initial, AllEnabled, ApplyAll, Unhindered, Work, Conserved;
    Safety(n, k, ls);
    var (s, a) := (Exec(Initial(n, k), ls), ApplyAll(AllFree(n), Acts(Initial(n, k), ls)));
    assert ThreadOk(s.threads[t], t, a);
    WorkBound(s.threads[t].pc, a);
    more := AloneEnds(s, a, t);
  }
}
