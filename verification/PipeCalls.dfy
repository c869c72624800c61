/** How the calls of readers that run at the same time end: with one claim each, or with nothing when no
    message is left. */
module PipeCalls {
  import PR = PipeReaders

  /** A call that wants `want` bytes and what it has claimed so far. */
  datatype Call = Call(want: nat, got: seq<PR.Claim>)

  /** A call that has returned. `nothing` says that it came to a null message and reports no bytes;
      `taken` is the number of messages unlinked before its last step. */
  datatype Finished = Finished(t: nat, call: Call, nothing: bool, taken: nat)

  datatype History = History(open: seq<Call>, done: seq<Finished>)

  /** The accesses behind which a null message is looked at. */
  predicate LooksAtHead(pc: PR.Pc) { pc.Load? || pc.PktCas? || pc.StrCasHead? }

  function Track(s: PR.State, h: History, l: PR.Label): (h': History)
    requires PR.Legal(s, l) && |h.open| == |s.readers|
    ensures |h'.open| == |h.open|
  {
    var t := l.t;
    var call := if l.Start? then Call(l.want, []) else h.open[t].(got := h.open[t].got + PR.Claimed(s, t));
    var f := Finished(t, call, l.Start? || LooksAtHead(s.readers[t].pc), |s.takers|);
    if PR.Step(s, l).readers[t].pc.Rest? then h.(done := h.done + [f]) else h.(open := h.open[t := call])
  }

  ghost function TrackAll(s: PR.State, h: History, ls: seq<PR.Label>): History
    requires PR.LegalRun(s, ls) && |h.open| == |s.readers|
    decreases |ls|
  {
    if ls == [] then h
    else
      SameReaders(s, ls[0]);
      TrackAll(PR.Step(s, ls[0]), Track(s, h, ls[0]), ls[1..])
  }

  lemma SameReaders(s: PR.State, l: PR.Label)
    requires PR.Legal(s, l)
    ensures |PR.Step(s, l).readers| == |s.readers|
  {}

  /** A call returns without bytes only when every message has been unlinked, and has claimed nothing then;
      any other call has claimed once, for itself and for the bytes it wants. */
  predicate Right(q: seq<nat>, f: Finished) {
    var (want, got) := (f.call.want, f.call.got);
    if f.nothing then got == [] && f.taken == |q| else |got| == 1 && got[0].t == f.t && got[0].want == want
  }

  ghost predicate AllRight(q: seq<nat>, h: History) { forall k :: 0 <= k < |h.done| ==> Right(q, h.done[k]) }

  predicate Claims(pc: PR.Pc) { pc.PktTail? || pc.StrTail? || pc.Release? || pc.Link? }

  predicate Midway(t: nat, r: PR.Reader, call: Call) {
    !r.pc.Rest? ==>
      && call.want == r.want
      && if Claims(r.pc) then |call.got| == 1 && call.got[0].t == t && call.got[0].want == r.want else call.got == []
  }

  ghost predicate AllMidway(s: PR.State, h: History) {
    |h.open| == |s.readers| && forall t :: 0 <= t < |s.readers| ==> Midway(t, s.readers[t], h.open[t])
  }

  /** One access takes a call on, or ends it in the right way. */
  lemma CallNext(q: seq<nat>, s: PR.State, t: nat, call: Call)
    requires t < |s.readers| && PR.Bounded(s, s.readers[t].pc) && !s.readers[t].pc.Rest? && PR.HeadOk(q, s)
    requires Midway(t, s.readers[t], call)
    ensures var (r, call') := (PR.Advance(s, t).readers[t], call.(got := call.got + PR.Claimed(s, t)));
            if r.pc.Rest? then Right(q, Finished(t, call', LooksAtHead(s.readers[t].pc), |s.takers|))
            else Midway(t, r, call')
  {
    hide PR.Bounded, PR.HeadOk;
    HeadGone(q, s);
    InBounds(s, s.readers[t].pc);
  }

  lemma InBounds(s: PR.State, pc: PR.Pc)
    requires PR.Bounded(s, pc)
    ensures !pc.Rest? && !pc.Load? ==> pc.m < |s.next| == |s.start| == |s.end|
  {}

  lemma HeadGone(q: seq<nat>, s: PR.State)
    requires PR.HeadOk(q, s)
    ensures s.head.None? ==> |s.takers| == |q|
  {}

  lemma StepMidway(q: seq<nat>, s: PR.State, h: History, l: PR.Label)
    requires PR.Legal(s, l) && PR.HeadOk(q, s) && AllMidway(s, h) && AllRight(q, h)
    ensures AllMidway(PR.Step(s, l), Track(s, h, l)) && AllRight(q, Track(s, h, l))
  {
    hide PR.HeadOk, PR.Claimed, PR.NextPc, Right, PR.Bounded;
    if l.Run? { CallNext(q, s, l.t, h.open[l.t]); }
    OthersStay(s, l);
    hide PR.Advance;
  }

  lemma OthersStay(s: PR.State, l: PR.Label)
    requires PR.Legal(s, l)
    ensures var s' := PR.Step(s, l);
            && |s'.readers| == |s.readers|
            && forall u :: 0 <= u < |s.readers| && u != l.t ==> s'.readers[u] == s.readers[u]
  {}

  lemma {:induction false} RunMidway(i: PR.State, q: seq<nat>, stream: bool, s: PR.State, h: History,
                                     ls: seq<PR.Label>)
    requires PR.Queue(i, q, stream) && PR.Good(i, q, stream, s) && PR.LegalRun(s, ls)
    requires AllMidway(s, h) && AllRight(q, h)
    ensures AllRight(q, TrackAll(s, h, ls))
    decreases |ls|
  {
    hide PR.Queue, PR.Good, PR.Step, PR.Legal, Track, AllMidway, AllRight;
    if ls != [] {
      assert PR.HeadOk(q, s) by { GoodHead(i, q, stream, s); }
      assert |h.open| == |s.readers| by { SameLength(s, h); }
      StepMidway(q, s, h, ls[0]);
      PR.StepGood(i, q, stream, s, ls[0]);
      RunMidway(i, q, stream, PR.Step(s, ls[0]), Track(s, h, ls[0]), ls[1..]);
    }
  }

  lemma GoodHead(i: PR.State, q: seq<nat>, stream: bool, s: PR.State)
    requires PR.Queue(i, q, stream) && PR.Good(i, q, stream, s)
    ensures PR.HeadOk(q, s)
  {
    hide PR.HeadOk;
  }

  lemma SameLength(s: PR.State, h: History)
    requires AllMidway(s, h)
    ensures |h.open| == |s.readers|
  {}

  function NoCalls(n: nat): History { History(seq(n, _ => Call(0, [])), []) }

  /** For every queue, every number of readers and every interleaving, every call that has returned has
      claimed exactly once or has come when no message was left; and every claim takes as much as its reader
      wants or all that is there. */
  lemma CallsRight(i: PR.State, q: seq<nat>, stream: bool, ls: seq<PR.Label>)
    requires PR.Queue(i, q, stream) && PR.LegalRun(i, ls)
    ensures AllRight(q, TrackAll(i, NoCalls(|i.readers|), ls))
    ensures PR.ClaimsFit(i, q, stream, PR.Exec(i, ls).claims)
  {
    PR.InitialGood(i, q, stream);
    assert AllMidway(i, NoCalls(|i.readers|)) && AllRight(q, NoCalls(|i.readers|));
    hide PR.Queue, PR.LegalRun, AllMidway, AllRight, PR.Exec, PR.Inv, PR.ClaimsFit;
    RunMidway(i, q, stream, i, NoCalls(|i.readers|), ls);
    PR.RunGood(i, q, stream, i, ls);
  }

  // ----- calls end -----

  /** The message a reader is about is still the first of the queue. */
  predicate Fresh(s: PR.State, pc: PR.Pc)
    requires !pc.Rest? && !pc.Load?
  {
    s.head == PR.Opt.Some(pc.m)
  }

  /** How many accesses are left of the call of a reader that runs alone. */
  function Work(s: PR.State, pc: PR.Pc): nat
    requires PR.Bounded(s, pc)
  {
    match pc
    case Rest => 0
    case Load => if s.head.None? then 1 else 9
    case CheckNext(_) => if Fresh(s, pc) then 8 else 12
    case PktLoad(_) => if Fresh(s, pc) then 5 else 11
    case PktCas(_, _) => if Fresh(s, pc) then 4 else 10
    case PktTail(_) => 3
    case StrStart(_) => if Fresh(s, pc) then 7 else 11
    case StrCasHead(_, _) => if Fresh(s, pc) then 6 else 10
    case StrDrain(m, start) => if s.start[m] == start then 4 else 5
    case StrTail(_) => 3
    case StrCasStart(m, start, _) => if s.start[m] == start then 1 else 10
    case Release(_) => 2
    case Link(_, _) => 1
  }

  /** Every access brings a reader nearer to the end of its call. */
  lemma AccessShrinks(s: PR.State, t: nat)
    requires t < |s.readers| && PR.Bounded(s, s.readers[t].pc) && !s.readers[t].pc.Rest?
    requires var pc := s.readers[t].pc; pc.StrStart? && Fresh(s, pc) ==> s.start[pc.m] != s.size
    requires var s' := PR.Advance(s, t); PR.Bounded(s', s'.readers[t].pc)
    ensures var s' := PR.Advance(s, t); Work(s', s'.readers[t].pc) < Work(s, s.readers[t].pc)
  {}

  /** The stream message is not drained while it is the first of the queue. */
  lemma FreshStart(i: PR.State, q: seq<nat>, stream: bool, s: PR.State, t: nat)
    requires PR.Queue(i, q, stream) && PR.Good(i, q, stream, s) && t < |s.readers|
    ensures PR.Bounded(s, s.readers[t].pc)
    ensures var pc := s.readers[t].pc; pc.StrStart? && Fresh(s, pc) ==> s.start[pc.m] != s.size
  {
    PR.PcNext(i, q, stream, s, t);
    assert PR.PcOk(i, q, stream, s, s.readers[t]);
    hide PR.FreeOk, PR.LinksOk, PR.HandsOk, PR.TailOk, PR.ReadersOk, PR.ClaimsOk, PR.Hand, PR.Seen;
  }

  /** `k` accesses of one reader. */
  function Alone(t: nat, k: nat): seq<PR.Label> { seq(k, _ => PR.Run(t)) }

  /** From every state that a run can reach, a reader that runs alone is at the end of its call after at
      most twelve accesses, whatever the others were doing. */
  lemma {:induction false} AloneEnds(i: PR.State, q: seq<nat>, stream: bool, s: PR.State, t: nat) returns (k: nat)
    requires PR.Queue(i, q, stream) && PR.Good(i, q, stream, s) && t < |s.readers|
    requires PR.Bounded(s, s.readers[t].pc)
    ensures k <= Work(s, s.readers[t].pc) <= 12 && PR.LegalRun(s, Alone(t, k))
    ensures t < |PR.Exec(s, Alone(t, k)).readers| && PR.Exec(s, Alone(t, k)).readers[t].pc.Rest?
    decreases Work(s, s.readers[t].pc)
  {
    hide PR.Queue, PR.Good, PR.Bounded, PR.Advance;
    if s.readers[t].pc.Rest? {
      k := 0;
    } else {
      var s' := PR.Step(s, PR.Run(t));
      PR.StepGood(i, q, stream, s, PR.Run(t));
      SameReaders(s, PR.Run(t));
      FreshStart(i, q, stream, s, t);
      FreshStart(i, q, stream, s', t);
      AccessShrinks(s, t);
      var k' := AloneEnds(i, q, stream, s', t);
      k := k' + 1;
      assert Alone(t, k)[0] == PR.Run(t) && Alone(t, k)[1..] == Alone(t, k');
      hide Work;
    }
  }

  /** So in every run. */
  lemma CallsEnd(i: PR.State, q: seq<nat>, stream: bool, ls: seq<PR.Label>, t: nat) returns (k: nat)
    requires PR.Queue(i, q, stream) && PR.LegalRun(i, ls) && t < |PR.Exec(i, ls).readers|
    ensures var s := PR.Exec(i, ls);
            && k <= 12 && PR.LegalRun(s, Alone(t, k)) && t < |PR.Exec(s, Alone(t, k)).readers|
            && PR.Exec(s, Alone(t, k)).readers[t].pc.Rest?
  {
    hide PR.Queue, PR.LegalRun, PR.Good, PR.Exec, PR.Bounded, Work;
    PR.InitialGood(i, q, stream);
    PR.RunGood(i, q, stream, i, ls);
    FreshStart(i, q, stream, PR.Exec(i, ls), t);
    k := AloneEnds(i, q, stream, PR.Exec(i, ls), t);
  }
}
