/** Readiness while readers run at the same time: the two events are cleared and set in steps of their own,
    between the accesses of a read, and are right again when all calls have returned. */
module PipeEvents {
  import opened Basics
  import PQ = PipeQueue
  import PR = PipeReaders
  import PN = PipeNode
  import PP = PipePhases

  /** What a reader has to do to the events before it goes on or returns. */
  datatype Event = Silent | ClearIn | SetOut

  datatype State = State(s: PR.State, pend: seq<Event>, pollin: bool, pollout: bool)

  /** What follows an access: nothing left to read, or the last message unlinked, clears readable; a read
      that has got something sets writable at its end. */
  function EventOf(s: PR.State, t: nat): Event
    requires t < |s.readers| && PR.Bounded(s, s.readers[t].pc)
  {
    var (want, pc) := (s.readers[t].want, s.readers[t].pc);
    if (pc.PktTail? && s.next[pc.m] == None) || PR.Drains(s, pc) then ClearIn
    else if PR.NextPc(s, want, pc).Rest? then (if pc.Link? || pc.StrCasStart? then SetOut else ClearIn)
    else Silent
  }

  predicate Legal(x: State, l: PR.Label) {
    && l.t < |x.pend| == |x.s.readers|
    && (x.pend[l.t].Silent? || l.Run?) && (x.pend[l.t].Silent? ==> PR.Legal(x.s, l))
  }

  /** A step of a reader: its pending event, or its next access. */
  function Step(x: State, l: PR.Label): State
    requires Legal(x, l)
  {
    var e := x.pend[l.t];
    if !e.Silent? then State(x.s, x.pend[l.t := Silent], x.pollin && !e.ClearIn?, x.pollout || e.SetOut?)
    else if l.Start? then x.(s := PR.Step(x.s, l))
    else x.(s := PR.Step(x.s, l), pend := x.pend[l.t := EventOf(x.s, l.t)])
  }

  ghost predicate LegalRun(x: State, ls: seq<PR.Label>)
    decreases |ls|
  {
    ls != [] ==> Legal(x, ls[0]) && LegalRun(Step(x, ls[0]), ls[1..])
  }

  ghost function Exec(x: State, ls: seq<PR.Label>): State
    requires LegalRun(x, ls)
    decreases |ls|
  {
    if ls == [] then x else Exec(Step(x, ls[0]), ls[1..])
  }

  /** The accesses of a run without the events. */
  ghost function Accesses(x: State, ls: seq<PR.Label>): seq<PR.Label>
    requires LegalRun(x, ls)
    decreases |ls|
  {
    if ls == [] then []
    else (if x.pend[ls[0].t].Silent? then [ls[0]] else []) + Accesses(Step(x, ls[0]), ls[1..])
  }

  /** A run with events is a run of the readers, so that all that is known of those holds. */
  lemma {:induction false} AccessesRun(x: State, ls: seq<PR.Label>)
    requires LegalRun(x, ls)
    ensures PR.LegalRun(x.s, Accesses(x, ls)) && PR.Exec(x.s, Accesses(x, ls)) == Exec(x, ls).s
    decreases |ls|
  {
    if ls != [] {
      var (l, rest) := (ls[0], Accesses(Step(x, ls[0]), ls[1..]));
      AccessesRun(Step(x, l), ls[1..]);
      if x.pend[l.t].Silent? {
        assert ([l] + rest)[0] == l && ([l] + rest)[1..] == rest;
      } else {
        assert [] + rest == rest;
      }
      hide PR.Step, PR.Legal;
    }
  }

  // ----- the invariant -----

  /** The reader that unlinked the last message has still to clear readable. */
  ghost predicate Clearing(q: seq<nat>, x: State, t: nat) {
    && q != [] && t < |x.pend| == |x.s.readers|
    && (x.pend[t].ClearIn? || (var pc := x.s.readers[t].pc; (pc.PktTail? || pc.StrDrain?) && pc.m == q[|q| - 1]))
  }

  predicate Past(pc: PR.Pc) { pc.PktTail? || pc.StrTail? || pc.Release? || pc.Link? }

  /** A reader that has got something and not yet set writable. */
  ghost predicate Delivering(x: State, t: nat) {
    t < |x.pend| == |x.s.readers| && (x.pend[t].SetOut? || Past(x.s.readers[t].pc))
  }

  ghost predicate InOk(q: seq<nat>, x: State, was: bool) {
    && |x.pend| == |x.s.readers| && |x.s.takers| <= |q|
    && (x.pollin ==> was) && (was && !x.pollin ==> |x.s.takers| == |q|)
    && (forall t :: 0 <= t < |x.pend| && x.pend[t].ClearIn? ==> |x.s.takers| == |q|)
    && (q != [] && |x.s.takers| == |q| && x.pollin ==> Clearing(q, x, x.s.takers[|q| - 1]))
  }

  ghost predicate OutOk(x: State, was: bool) {
    && |x.pend| == |x.s.readers|
    && (was ==> x.pollout) && (x.pollout ==> was || x.s.claims != [])
    && (forall t :: 0 <= t < |x.pend| && Delivering(x, t) ==> x.s.claims != [])
    && (x.s.claims != [] && !x.pollout ==> exists t :: 0 <= t < |x.pend| && Delivering(x, t))
  }

  // ----- readable -----

  lemma GoodParts(i: PR.State, q: seq<nat>, stream: bool, s: PR.State, t: nat)
    requires PR.Queue(i, q, stream) && PR.Good(i, q, stream, s) && t < |s.readers|
    ensures PR.Inv(i, q, stream, s) && PR.HeadOk(q, s) && PR.FreeOk(i, q, s) && PR.HandsOk(q, s) && PR.Distinct(q)
    ensures s.readers[t].pc.PktTail? ==> !PR.IsStream(q, stream, s.readers[t].pc.m)
  {
    assert PR.PcOk(i, q, stream, s, s.readers[t]);
    hide PR.ClaimsOk, PR.LinksOk, PR.TailOk, PR.DrainOk, PR.FreeOk, PR.HandsOk, PR.StartOk, PR.HeadOk;
  }

  /** The message in hand at the point where the tail may be cleared is the last one exactly if it links to none. */
  lemma LastInHand(i: PR.State, q: seq<nat>, stream: bool, s: PR.State, t: nat)
    requires PR.Queue(i, q, stream) && PR.Good(i, q, stream, s) && t < |s.readers| && s.readers[t].pc.PktTail?
    ensures var m := s.readers[t].pc.m; q != [] && m < |s.next| && (s.next[m] == None <==> m == q[|q| - 1])
    ensures s.next[s.readers[t].pc.m] == None ==> |s.takers| == |q|
  {
    hide PR.Queue, PR.Good, PR.Inv, PR.FreeOk, PR.Distinct;
    GoodParts(i, q, stream, s, t);
    var j := PR.HandPlace(i, q, stream, s, t);
    if q[j] == q[|q| - 1] { PP.LastOnly(q, j); }
  }

  /** An event that clears readable comes up only when no message is left. */
  lemma ClearsEmpty(i: PR.State, q: seq<nat>, stream: bool, s: PR.State, t: nat)
    requires PR.Queue(i, q, stream) && PR.Good(i, q, stream, s)
    requires t < |s.readers| && !s.readers[t].pc.Rest? && PR.Bounded(s, s.readers[t].pc)
    ensures EventOf(s, t).ClearIn? ==> |s.takers| == |q|
  {
    hide PR.Queue, PR.Good, PR.Inv, PR.FreeOk, PR.Distinct, PR.HandsOk;
    var pc := s.readers[t].pc;
    GoodParts(i, q, stream, s, t);
    if PR.Drains(s, pc) {
      PR.Draining(i, q, stream, s, t);
    } else if pc.PktTail? {
      LastInHand(i, q, stream, s, t);
    }
  }

  /** The reader of the last message comes to the clearing. */
  lemma ClearingGoesOn(i: PR.State, q: seq<nat>, stream: bool, s: PR.State, t: nat)
    requires PR.Queue(i, q, stream) && PR.Good(i, q, stream, s) && q != []
    requires t < |s.readers| && PR.Bounded(s, s.readers[t].pc)
    requires var pc := s.readers[t].pc; (pc.PktTail? || pc.StrDrain?) && pc.m == q[|q| - 1]
    ensures EventOf(s, t).ClearIn? || (var pc := PR.Advance(s, t).readers[t].pc; pc.StrDrain? && pc.m == q[|q| - 1])
  {
    hide PR.Queue, PR.Good;
    if s.readers[t].pc.PktTail? { LastInHand(i, q, stream, s, t); }
  }

  lemma AccessIn(i: PR.State, q: seq<nat>, stream: bool, x: State, t: nat, was: bool)
    requires PR.Queue(i, q, stream) && PR.Good(i, q, stream, x.s) && InOk(q, x, was)
    requires Legal(x, PR.Run(t)) && x.pend[t].Silent?
    requires |PR.Advance(x.s, t).takers| <= |q|
    ensures InOk(q, Step(x, PR.Run(t)), was)
  {
    hide PR.Queue, PR.Good, PR.Inv, PR.FreeOk, PR.HandsOk, PR.Distinct, EventOf;
    var (s, s', x') := (x.s, PR.Advance(x.s, t), Step(x, PR.Run(t)));
    ClearsEmpty(i, q, stream, s, t);
    GoodParts(i, q, stream, s, t);
    if q != [] && |s'.takers| == |q| && x'.pollin {
      var u := s'.takers[|q| - 1];
      if |s.takers| == |q| && u == t { ClearingGoesOn(i, q, stream, s, t); }
      assert Clearing(q, x', u);
    }
  }

  // ----- writable -----

  lemma AccessOut(x: State, t: nat, was: bool)
    requires OutOk(x, was) && Legal(x, PR.Run(t)) && x.pend[t].Silent?
    ensures OutOk(Step(x, PR.Run(t)), was)
  {
    var (s, x') := (x.s, Step(x, PR.Run(t)));
    var pc := s.readers[t].pc;
    assert Delivering(x', t) <==> Past(pc) || PR.Claimed(s, t) != [];
    assert Past(pc) ==> Delivering(x, t);
    if x'.s.claims != [] && !x'.pollout {
      if PR.Claimed(s, t) == [] {
        var u :| 0 <= u < |x.pend| && Delivering(x, u);
        assert Delivering(x', u);
      }
    }
    forall u | 0 <= u < |x'.pend| && Delivering(x', u)
      ensures x'.s.claims != []
    {
      if u != t { assert Delivering(x, u); }
    }
  }

  lemma EventOut(x: State, l: PR.Label, was: bool)
    requires OutOk(x, was) && Legal(x, l) && !x.pend[l.t].Silent?
    ensures OutOk(Step(x, l), was)
  {
    var x' := Step(x, l);
    assert x.pend[l.t].SetOut? ==> Delivering(x, l.t);
    forall u | 0 <= u < |x'.pend| && Delivering(x', u)
      ensures x'.s.claims != []
    {
      assert Delivering(x, u);
    }
    if x'.s.claims != [] && !x'.pollout {
      var u :| 0 <= u < |x.pend| && Delivering(x, u);
      assert Delivering(x', u);
    }
  }

  // ----- whole runs -----

  ghost predicate Kept(i: PR.State, q: seq<nat>, stream: bool, x: State, in0: bool, out0: bool)
    requires PR.Queue(i, q, stream)
  {
    PR.Good(i, q, stream, x.s) && InOk(q, x, in0) && OutOk(x, out0)
  }

  lemma StartKeeps(q: seq<nat>, x: State, l: PR.Label, in0: bool, out0: bool)
    requires InOk(q, x, in0) && OutOk(x, out0) && Legal(x, l) && l.Start?
    ensures InOk(q, Step(x, l), in0) && OutOk(Step(x, l), out0)
  {
    var x' := Step(x, l);
    assert x'.s == x.s.(readers := x'.s.readers) && forall u :: 0 <= u < |x.pend| && u != l.t ==>
           x'.s.readers[u] == x.s.readers[u];
    assert forall u :: 0 <= u < |x.pend| ==> (Delivering(x', u) <==> Delivering(x, u));
    hide PR.Step;
  }

  lemma EventIn(q: seq<nat>, x: State, l: PR.Label, was: bool)
    requires InOk(q, x, was) && Legal(x, l) && !x.pend[l.t].Silent?
    ensures InOk(q, Step(x, l), was)
  {}

  lemma StepKeeps(i: PR.State, q: seq<nat>, stream: bool, x: State, l: PR.Label, in0: bool, out0: bool)
    requires PR.Queue(i, q, stream) && Kept(i, q, stream, x, in0, out0) && Legal(x, l)
    ensures Kept(i, q, stream, Step(x, l), in0, out0)
  {
    hide PR.Queue, PR.Good, InOk, OutOk, PR.Advance, PR.Begin, EventOf;
    if !x.pend[l.t].Silent? {
      EventIn(q, x, l, in0);
      EventOut(x, l, out0);
    } else {
      PR.StepGood(i, q, stream, x.s, l);
      TakersBound(i, q, stream, PR.Step(x.s, l));
      if l.Start? {
        StartKeeps(q, x, l, in0, out0);
      } else {
        AccessIn(i, q, stream, x, l.t, in0);
        AccessOut(x, l.t, out0);
      }
    }
  }

  lemma TakersBound(i: PR.State, q: seq<nat>, stream: bool, s: PR.State)
    requires PR.Queue(i, q, stream) && PR.Good(i, q, stream, s)
    ensures |s.takers| <= |q| && s.head == PR.AtOr(q, |s.takers|)
  {
    hide PR.Queue, PR.ClaimsOk, PR.LinksOk, PR.TailOk, PR.DrainOk, PR.FreeOk, PR.HandsOk, PR.StartOk, PR.ReadersOk,
         PR.Fixed;
  }

  lemma {:induction false} RunKeeps(i: PR.State, q: seq<nat>, stream: bool, x: State, ls: seq<PR.Label>, in0: bool,
                                    out0: bool)
    requires PR.Queue(i, q, stream) && Kept(i, q, stream, x, in0, out0) && LegalRun(x, ls)
    ensures Kept(i, q, stream, Exec(x, ls), in0, out0)
    decreases |ls|
  {
    hide PR.Queue, Kept, Step, Legal;
    if ls != [] {
      StepKeeps(i, q, stream, x, ls[0], in0, out0);
      RunKeeps(i, q, stream, Step(x, ls[0]), ls[1..], in0, out0);
    }
  }

  /** Readers that have not begun. */
  function Initial(i: PR.State, in0: bool, out0: bool): State { State(i, seq(|i.readers|, _ => Silent), in0, out0) }

  ghost predicate Returned(x: State) { PP.Returned(x.s) && forall t :: 0 <= t < |x.pend| ==> x.pend[t].Silent? }

  lemma InitialKept(i: PR.State, q: seq<nat>, stream: bool, in0: bool, out0: bool)
    requires PR.Queue(i, q, stream)
    ensures Kept(i, q, stream, Initial(i, in0, out0), in0, out0)
  {
    PR.InitialGood(i, q, stream);
    hide PR.Good, PR.AtOr, PR.Distinct;
  }

  /** When all calls have returned, readable has been cleared exactly if no message is left of a queue that
      had some, and writable is set if a read has got something, and otherwise as it was. */
  lemma EventsAtRest(i: PR.State, q: seq<nat>, stream: bool, in0: bool, out0: bool, ls: seq<PR.Label>)
    requires PR.Queue(i, q, stream) && LegalRun(Initial(i, in0, out0), ls) && Returned(Exec(Initial(i, in0, out0), ls))
    ensures var x := Exec(Initial(i, in0, out0), ls);
            && (x.pollin ==> in0) && (q != [] ==> (x.pollin <==> in0 && x.s.head.Some?))
            && (x.pollout <==> out0 || x.s.claims != [])
  {
    hide PR.Queue, PR.Good, Exec, LegalRun, Initial, InOk, OutOk, Returned, PR.AtOr;
    InitialKept(i, q, stream, in0, out0);
    RunKeeps(i, q, stream, Initial(i, in0, out0), ls, in0, out0);
    var x := Exec(Initial(i, in0, out0), ls);
    TakersBound(i, q, stream, x.s);
    Resting(q, x, in0, out0);
    assert x.s.head.Some? <==> |x.s.takers| < |q| by { HeadSome(q, x.s); }
  }

  lemma HeadSome(q: seq<nat>, s: PR.State)
    requires |s.takers| <= |q| && s.head == PR.AtOr(q, |s.takers|)
    ensures s.head.Some? <==> |s.takers| < |q|
  {}

  lemma Resting(q: seq<nat>, x: State, in0: bool, out0: bool)
    requires InOk(q, x, in0) && OutOk(x, out0) && Returned(x)
    ensures (x.pollin ==> in0) && (q != [] ==> (x.pollin <==> in0 && |x.s.takers| < |q|))
    ensures x.pollout <==> out0 || x.s.claims != []
  {
    assert forall t :: 0 <= t < |x.pend| ==> !Delivering(x, t);
  }

  // ----- the pipe after a phase -----

  /** Something was claimed exactly if a message or a byte of the stream message is gone. */
  lemma ClaimsTake(i: PR.State, q: seq<nat>, stream: bool, ls: seq<PR.Label>)
    requires PR.Queue(i, q, stream) && PR.LegalRun(i, ls) && PP.Returned(PR.Exec(i, ls))
    ensures var s := PR.Exec(i, ls); s.claims != [] <==> |s.takers| > 0 || PR.StreamLen(q, stream, s.claims) > 0
    ensures var s := PR.Exec(i, ls);
            && |s.takers| <= |q| && (!stream ==> PR.StreamLen(q, stream, s.claims) == 0)
            && (stream && |s.takers| + 1 < |q| ==> PR.StreamLen(q, stream, s.claims) == 0)
  {
    PR.InitialGood(i, q, stream);
    PR.RunGood(i, q, stream, i, ls);
    if stream { PP.StreamLeft(i, q, ls); }
    var s := PR.Exec(i, ls);
    hide PR.Exec, PR.LegalRun, PR.Inv, PR.Queue, PR.Gone;
    assert PR.ClaimsOk(i, q, stream, s);
    if s.claims != [] {
      var (before, last) := (s.claims[..|s.claims| - 1], s.claims[|s.claims| - 1]);
      assert last.len > 0;
    }
  }

  lemma LeftIs<B>(size: nat, a: PQ.Queue<B>, t: nat, n: nat)
    requires PQ.Formed(size, a) && t <= |a.items| && PP.Accounted(a.items, t, n)
    requires n > 0 && t < |a.items| ==> !a.items[t].packet
    ensures t == 0 && n == 0 ==> PP.Left(a.items, t, n) == a.items
    ensures t > 0 || (n > 0 && t < |a.items|) ==> |PQ.Flat(PP.Left(a.items, t, n))| < |PQ.Flat(a.items)|
    ensures PP.Left(a.items, t, n) == [] <==> t == |a.items|
  {
    hide PQ.Flat;
    if t > 0 { PQ.FlatFirst(a.items[..t]); }
  }

  /** The pipe that a phase of readers leaves, with its events as they then are: readable exactly when an item
      is left if it was so before; and ready exactly as it should be if something was read or it was so before. */
  lemma PhaseLeavesReady<B>(buf: seq<B>, msgs: seq<PN.Msg>, head: PR.Opt, tail: PR.Opt, free: PR.Opt, q: seq<nat>,
                            idle: seq<nat>, a: PQ.Queue<B>, readers: nat, ls: seq<PR.Label>)
    requires PP.Pipe(buf, msgs, head, tail, free, q, idle, a)
    requires var x := Initial(PN.Idle(|buf|, msgs, head, tail, free, readers), a.pollin, a.pollout);
             LegalRun(x, ls) && Returned(Exec(x, ls))
    ensures var x := Exec(Initial(PN.Idle(|buf|, msgs, head, tail, free, readers), a.pollin, a.pollout), ls);
            var (s, t, n) := (x.s, |x.s.takers|, PR.StreamLen(q, PQ.Extends(a.items), x.s.claims));
            && t <= |q| == |a.items| && |s.next| == |s.start| == |s.end|
            && var b := PQ.Queue(PP.Left(a.items, t, n), a.hup, x.pollin, x.pollout);
               && PP.Pipe(buf, PP.Kept(s), s.head, s.tail, s.free, q[t..], PP.Back(s.freed) + idle, b)
               && ((a.pollin <==> a.items != []) ==> (b.pollin <==> b.items != []))
               && ((a.pollin <==> a.items != []) && s.claims != [] ==> PQ.Exact(|buf|, b))
               && (PQ.Exact(|buf|, a) ==> PQ.Exact(|buf|, b))
  {
    hide PR.Queue, PR.Exec, PR.LegalRun, Exec, LegalRun, PN.Idle, PN.Linked, PN.Laid, PQ.Flat, PQ.Formed, PR.StreamLen,
         PP.Returned, PP.Accounted, PP.Left, Accesses, PP.Kept, PP.Back;
    var (i, stream) := (PN.Idle(|buf|, msgs, head, tail, free, readers), PQ.Extends(a.items));
    var x0 := Initial(i, a.pollin, a.pollout);
    var x := Exec(x0, ls);
    AccessesRun(x0, ls);
    var (s, ps) := (x.s, Accesses(x0, ls));
    var (t, n) := (|s.takers|, PR.StreamLen(q, stream, s.claims));
    PN.LeavesQueue(buf, msgs, head, tail, free, q, idle, a, readers);
    PP.PhaseLeavesPipe(buf, msgs, head, tail, free, q, idle, a, readers, ps);
    EventsAtRest(i, q, stream, a.pollin, a.pollout, ls);
    ClaimsTake(i, q, stream, ps);
    StreamLast(|buf|, a);
    LeftIs(|buf|, a, t, n);
    HeadLeft(i, q, stream, ps);
    PipeFlags(buf, PP.Kept(s), s.head, s.tail, s.free, q[t..], PP.Back(s.freed) + idle,
              a.(items := PP.Left(a.items, t, n)),
              PQ.Queue(PP.Left(a.items, t, n), a.hup, x.pollin, x.pollout));
    FlatWithin(|buf|, a);
  }

  lemma FlatWithin<B>(size: nat, a: PQ.Queue<B>)
    requires PQ.Formed(size, a)
    ensures |PQ.Flat(a.items)| <= size
  {}

  lemma StreamLast<B>(size: nat, a: PQ.Queue<B>)
    requires PQ.Formed(size, a)
    ensures forall k :: 0 <= k < |a.items| ==> (!a.items[k].packet <==> PQ.Extends(a.items) && k == |a.items| - 1)
  {
    hide PQ.Flat;
  }

  lemma HeadLeft(i: PR.State, q: seq<nat>, stream: bool, ls: seq<PR.Label>)
    requires PR.Queue(i, q, stream) && PR.LegalRun(i, ls)
    ensures var s := PR.Exec(i, ls); |s.takers| <= |q| && (s.head.Some? <==> |s.takers| < |q|)
  {
    hide PR.Queue, PR.Good;
    PR.InitialGood(i, q, stream);
    PR.RunGood(i, q, stream, i, ls);
    TakersBound(i, q, stream, PR.Exec(i, ls));
  }

  lemma PipeFlags<B>(buf: seq<B>, msgs: seq<PN.Msg>, head: PR.Opt, tail: PR.Opt, free: PR.Opt, q: seq<nat>,
                     idle: seq<nat>, a: PQ.Queue<B>, b: PQ.Queue<B>)
    requires PP.Pipe(buf, msgs, head, tail, free, q, idle, a) && b.items == a.items
    ensures PP.Pipe(buf, msgs, head, tail, free, q, idle, b)
  {
    hide PN.Linked, PN.Laid, PQ.Flat;
  }
}
