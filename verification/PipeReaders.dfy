/** Concurrent readers of one pipe, writers excluded: one atomic load, store, exchange or
    compare-and-swap per step, any number of readers, every interleaving. */
module PipeReaders {
  import opened Basics
  import opened Ring

  /** A link to a message. */
  type Opt = Option<nat>

  /** Where a reader stands; the constructor names its next access to shared memory. */
  datatype Pc =
    | Rest
    | Load
    | CheckNext(m: nat)
    | PktLoad(m: nat)
    | PktCas(m: nat, nx: Opt)
    | PktTail(m: nat)
    | StrStart(m: nat)
    | StrCasHead(m: nat, start: nat)
    | StrDrain(m: nat, start: nat)
    | StrTail(m: nat)
    | StrCasStart(m: nat, start: nat, lim: nat)
    | Release(m: nat)
    | Link(m: nat, prev: Opt)

  datatype Reader = Reader(want: nat, pc: Pc)

  /** Reader `t`, wanting `want` bytes, has made the `len` bytes of message `m` from `pos` on its own. */
  datatype Claim = Claim(t: nat, want: nat, m: nat, pos: nat, len: nat)

  /** `claims`, `takers`, `freed` and `pushers` record, in order, the ranges claimed, which reader
      unlinked each message from the queue, which messages went back to the free list and by whom. */
  datatype State = State(size: nat, head: Opt, tail: Opt, free: Opt,
                         next: seq<Opt>, start: seq<nat>, end: seq<nat>, readers: seq<Reader>,
                         claims: seq<Claim>, takers: seq<nat>, freed: seq<nat>, pushers: seq<nat>)

  function Goto(h: Opt): Pc { if h.None? then Rest else CheckNext(h.v) }

  predicate Bounded(s: State, pc: Pc) {
    && s.size > 0 && |s.next| == |s.start| == |s.end|
    && (!pc.Rest? && !pc.Load? ==> pc.m < |s.next| && s.start[pc.m] <= s.size && s.end[pc.m] < s.size)
    && (pc.StrDrain? || pc.StrCasHead? || pc.StrCasStart? ==> pc.start < s.size)
  }

  /** The control transfer after one access, decided by the value read. */
  function NextPc(s: State, want: nat, pc: Pc): Pc
    requires Bounded(s, pc)
  {
    match pc
    case Rest => Rest
    case Load => Goto(s.head)
    case CheckNext(m) => if s.next[m] != Some(m) then PktLoad(m) else StrStart(m)
    case PktLoad(m) => PktCas(m, s.next[m])
    case PktCas(m, nx) => if s.head == Some(m) then PktTail(m) else Goto(s.head)
    case PktTail(m) => Release(m)
    case StrStart(m) =>
      var start := s.start[m];
      if start == s.size then Load
      else if Used(s.size, start, s.end[m]) <= want then StrCasHead(m, start)
      else StrCasStart(m, start, Idx(s.size, start + want))
    case StrCasHead(m, start) => if s.head == Some(m) then StrDrain(m, start) else Goto(s.head)
    case StrDrain(m, start) => if s.start[m] == start then StrTail(m) else StrDrain(m, s.start[m])
    case StrTail(m) => Release(m)
    case StrCasStart(m, start, lim) => if s.start[m] == start then Rest else Load
    case Release(m) => Link(m, s.free)
    case Link(m, prev) => Rest
  }

  /** A compare-and-swap that succeeds. */
  predicate PopsPacket(s: State, pc: Pc) { pc.PktCas? && s.head == Some(pc.m) }

  predicate PopsStream(s: State, pc: Pc) { pc.StrCasHead? && s.head == Some(pc.m) }

  predicate Drains(s: State, pc: Pc)
    requires Bounded(s, pc)
  { pc.StrDrain? && s.start[pc.m] == pc.start }

  predicate TakesPart(s: State, pc: Pc)
    requires Bounded(s, pc)
  { pc.StrCasStart? && s.start[pc.m] == pc.start }

  function Claimed(s: State, t: nat): seq<Claim>
    requires t < |s.readers| && Bounded(s, s.readers[t].pc)
  {
    var Reader(want, pc) := s.readers[t];
    if PopsPacket(s, pc) then [Claim(t, want, pc.m, s.start[pc.m], Min(Used(s.size, s.start[pc.m], s.end[pc.m]), want))]
    else if Drains(s, pc) then [Claim(t, want, pc.m, pc.start, Min(Used(s.size, pc.start, s.end[pc.m]), want))]
    else if TakesPart(s, pc) then [Claim(t, want, pc.m, pc.start, want)]
    else []
  }

  /** One access of reader `t`. */
  function Advance(s: State, t: nat): State
    requires t < |s.readers| && Bounded(s, s.readers[t].pc)
  {
    var Reader(want, pc) := s.readers[t];
    var pops := PopsPacket(s, pc) || PopsStream(s, pc);
    State(
      s.size,
      if PopsPacket(s, pc) then pc.nx else if PopsStream(s, pc) then None else s.head,
      if (pc.PktTail? && s.next[pc.m] == None) || pc.StrTail? then None else s.tail,
      if pc.Release? then Some(pc.m) else s.free,
      if pc.Link? then s.next[pc.m := pc.prev] else s.next,
      if Drains(s, pc) then s.start[pc.m := s.size] else if TakesPart(s, pc) then s.start[pc.m := pc.lim] else s.start,
      s.end, s.readers[t := Reader(want, NextPc(s, want, pc))],
      s.claims + Claimed(s, t),
      if pops then s.takers + [t] else s.takers,
      if pc.Release? then s.freed + [pc.m] else s.freed,
      if pc.Release? then s.pushers + [t] else s.pushers)
  }

  /** Reader `t` starts a call that wants `want` bytes. */
  function Begin(s: State, t: nat, want: nat): State
    requires t < |s.readers|
  {
    s.(readers := s.readers[t := Reader(want, Load)])
  }

  datatype Label = Start(t: nat, want: nat) | Run(t: nat)

  predicate Legal(s: State, l: Label) {
    && l.t < |s.readers|
    && match l
       case Start(t, want) => want > 0 && s.readers[t].pc.Rest?
       case Run(t) => !s.readers[t].pc.Rest? && Bounded(s, s.readers[t].pc)
  }

  function Step(s: State, l: Label): State
    requires Legal(s, l)
  {
    match l
    case Start(t, want) => Begin(s, t, want)
    case Run(t) => Advance(s, t)
  }

  // ----- the queue as the last writer left it -----

  ghost predicate Distinct(q: seq<nat>) { forall i, j :: 0 <= i < j < |q| ==> q[i] != q[j] }

  function AtOr(q: seq<nat>, c: nat): Opt { if c < |q| then Some(q[c]) else None }

  /** The messages of `q` are linked from head to tail, packets first; with `stream` the last one
      is a stream message, which links to itself. No reader is running. */
  ghost predicate Queue(i: State, q: seq<nat>, stream: bool) {
    && i.size > 0 && |i.next| == |i.start| == |i.end|
    && Distinct(q) && (stream ==> q != [])
    && (forall k :: 0 <= k < |q| ==> q[k] < |i.next| && i.start[q[k]] < i.size && i.end[q[k]] < i.size)
    && i.head == AtOr(q, 0) && i.tail == (if q == [] then None else Some(q[|q| - 1]))
    && (forall k {:trigger i.next[q[k]]} :: 0 <= k < |q| ==>
         i.next[q[k]] == if stream && k == |q| - 1 then Some(q[k]) else AtOr(q, k + 1))
    && (i.free.Some? ==> i.free.v !in q)
    && i.claims == [] && i.takers == [] && i.freed == [] && i.pushers == []
    && (forall t :: 0 <= t < |i.readers| ==> i.readers[t].pc == Rest)
  }

  predicate IsStream(q: seq<nat>, stream: bool, m: nat) { stream && q != [] && m == q[|q| - 1] }

  /** The length of the stream message when the readers start. */
  function Whole(i: State, m: nat): nat
    requires m < |i.start| == |i.end| && i.start[m] < i.size && i.end[m] < i.size
  {
    Used(i.size, i.start[m], i.end[m])
  }

  /** How many bytes of the stream message have been claimed: `size` in the start field marks a drained message. */
  function Gone(i: State, s: State, m: nat): nat
    requires m < |i.start| == |i.end| == |s.start| && i.start[m] < i.size && i.end[m] < i.size && s.start[m] <= i.size
  {
    if s.start[m] == i.size then Whole(i, m) else Space(i.size, i.start[m], s.start[m])
  }

  // ----- the invariant -----

  ghost predicate Fixed(i: State, s: State) {
    && s.size == i.size && s.end == i.end && |s.next| == |i.next| && |s.start| == |i.start|
    && |s.readers| == |i.readers|
  }

  /** The head is the first message no reader has unlinked. */
  ghost predicate HeadOk(q: seq<nat>, s: State) {
    |s.takers| <= |q| && s.head == AtOr(q, |s.takers|)
  }

  function PrevFree(i: State, freed: seq<nat>, k: nat): Opt
    requires k <= |freed|
  {
    if k == 0 then i.free else Some(freed[k - 1])
  }

  ghost predicate Taken(q: seq<nat>, s: State, m: nat) {
    exists j :: 0 <= j < |s.takers| <= |q| && q[j] == m
  }

  /** Messages on the free list were unlinked before, each only once; other links are untouched. */
  ghost predicate FreeOk(i: State, q: seq<nat>, s: State) {
    && |s.pushers| == |s.freed| && Distinct(s.freed) && s.free == PrevFree(i, s.freed, |s.freed|)
    && (forall k :: 0 <= k < |s.freed| ==> Taken(q, s, s.freed[k]))
    && (|s.next| == |i.next| && forall m :: 0 <= m < |i.next| && m !in s.freed ==> s.next[m] == i.next[m])
  }

  /** A message on the free list links to the one before it, or its reader is about to store that link. */
  ghost predicate PushedOk(i: State, s: State, k: nat)
    requires k < |s.freed| == |s.pushers| && |s.next| == |i.next|
  {
    var (m, t, prev) := (s.freed[k], s.pushers[k], PrevFree(i, s.freed, k));
    && m < |s.next| && t < |s.readers|
    && (if s.readers[t].pc.Link? && s.readers[t].pc.m == m then s.readers[t].pc.prev == prev && s.next[m] == i.next[m]
        else s.next[m] == prev)
  }

  ghost predicate LinksOk(i: State, s: State) {
    && |s.pushers| == |s.freed| && |s.next| == |i.next|
    && (forall k :: 0 <= k < |s.freed| ==> PushedOk(i, s, k))
    && (forall t :: 0 <= t < |s.readers| && s.readers[t].pc.Link? ==>
          exists k :: 0 <= k < |s.freed| && s.freed[k] == s.readers[t].pc.m && s.pushers[k] == t)
  }

  /** Only the stream message moves its start, forward and never past its end while it is in use. */
  ghost predicate StartOk(i: State, q: seq<nat>, stream: bool, s: State) {
    && |s.start| == |i.start|
    && (forall m :: 0 <= m < |i.start| && !IsStream(q, stream, m) ==> s.start[m] == i.start[m])
    && (stream && q != [] ==>
          var m := q[|q| - 1];
          && m < |i.start| == |i.end| && i.start[m] < i.size && i.end[m] < i.size && s.start[m] <= i.size
          && (s.start[m] < i.size ==> Gone(i, s, m) < Whole(i, m)))
  }

  /** The message a reader has unlinked and not yet put on the free list. */
  function Hand(pc: Pc): Opt {
    match pc
    case PktTail(m) => Some(m)
    case StrDrain(m, _) => Some(m)
    case StrTail(m) => Some(m)
    case Release(m) => Some(m)
    case _ => None
  }

  /** Every unlinked message is in the hands of the reader that unlinked it until it is on the free list. */
  ghost predicate HandsOk(q: seq<nat>, s: State) {
    && |s.takers| <= |q|
    && (forall j :: 0 <= j < |s.takers| ==>
          s.takers[j] < |s.readers| && (q[j] !in s.freed <==> Hand(s.readers[s.takers[j]].pc) == Some(q[j])))
    && (forall t :: 0 <= t < |s.readers| && Hand(s.readers[t].pc).Some? ==>
          exists j :: 0 <= j < |s.takers| && Some(q[j]) == Hand(s.readers[t].pc) && s.takers[j] == t)
  }

  predicate BeforeTail(pc: Pc) { pc.PktTail? || pc.StrDrain? || pc.StrTail? }

  /** The last message has been unlinked and its reader has got past clearing the tail. */
  ghost predicate TailDone(q: seq<nat>, s: State)
    requires |s.takers| <= |q|
  {
    q == [] ||
    (|s.takers| == |q| && s.takers[|q| - 1] < |s.readers| &&
     (var pc := s.readers[s.takers[|q| - 1]].pc; Hand(pc) == Some(q[|q| - 1]) ==> !BeforeTail(pc)))
  }

  ghost predicate TailOk(i: State, q: seq<nat>, s: State) {
    |s.takers| <= |q| && s.tail == if TailDone(q, s) then None else i.tail
  }

  /** The stream message is marked drained exactly when it is unlinked and its reader has drained it. */
  ghost predicate DrainOk(i: State, q: seq<nat>, stream: bool, s: State) {
    stream && q != [] && q[|q| - 1] < |s.start| && |s.takers| <= |q| ==>
      (s.start[q[|q| - 1]] == i.size <==>
       |s.takers| == |q| && s.takers[|q| - 1] < |s.readers| &&
       (var pc := s.readers[s.takers[|q| - 1]].pc; Hand(pc) == Some(q[|q| - 1]) ==> !pc.StrDrain?))
  }

  /** A message that has been at the head at some time. */
  ghost predicate Seen(q: seq<nat>, s: State, m: nat) {
    exists j :: 0 <= j < |q| && j <= |s.takers| && q[j] == m
  }

  /** What a reader may rely on at each point of its call. */
  ghost predicate PcOk(i: State, q: seq<nat>, stream: bool, s: State, r: Reader)
    requires Queue(i, q, stream) && StartOk(i, q, stream, s)
  {
    var (want, pc) := (r.want, r.pc);
    && (!pc.Rest? ==> want > 0)
    && (!pc.Rest? && !pc.Load? ==> Seen(q, s, pc.m))
    && (pc.PktLoad? && s.head == Some(pc.m) ==> !IsStream(q, stream, pc.m))
    && (pc.PktCas? && s.head == Some(pc.m) ==> !IsStream(q, stream, pc.m) && pc.m < |i.next| && pc.nx == i.next[pc.m])
    && (pc.PktTail? ==> !IsStream(q, stream, pc.m))
    && (pc.StrStart? || pc.StrCasHead? || pc.StrDrain? || pc.StrTail? || pc.StrCasStart? ==> IsStream(q, stream, pc.m))
    && (pc.StrCasHead? || pc.StrDrain? ==> pc.start < i.size && want + Gone(i, s, pc.m) >= Whole(i, pc.m))
    && (pc.StrCasStart? ==>
          && pc.start < i.size && Space(i.size, i.start[pc.m], pc.start) <= Gone(i, s, pc.m)
          && Space(i.size, i.start[pc.m], pc.start) + want < Whole(i, pc.m) && pc.lim == Idx(i.size, pc.start + want))
  }

  ghost predicate ReadersOk(i: State, q: seq<nat>, stream: bool, s: State)
    requires Queue(i, q, stream) && StartOk(i, q, stream, s)
  {
    forall t :: 0 <= t < |s.readers| ==> PcOk(i, q, stream, s, s.readers[t])
  }

  ghost predicate Inv(i: State, q: seq<nat>, stream: bool, s: State)
    requires Queue(i, q, stream)
  {
    && Fixed(i, s) && HeadOk(q, s) && FreeOk(i, q, s) && LinksOk(i, s) && StartOk(i, q, stream, s)
    && HandsOk(q, s) && TailOk(i, q, s) && DrainOk(i, q, stream, s) && ReadersOk(i, q, stream, s)
  }

  // ----- stability and progress of one reader -----

  ghost predicate Later(s: State, s': State) { |s.takers| <= |s'.takers| && s.takers == s'.takers[..|s.takers|] }

  lemma PcStable(i: State, q: seq<nat>, stream: bool, s: State, s': State, r: Reader)
    requires Queue(i, q, stream) && StartOk(i, q, stream, s) && StartOk(i, q, stream, s') && HeadOk(q, s)
             && HeadOk(q, s')
    requires Later(s, s') && PcOk(i, q, stream, s, r)
    requires stream && q != [] ==> Gone(i, s, q[|q| - 1]) <= Gone(i, s', q[|q| - 1])
    ensures PcOk(i, q, stream, s', r)
  {
    var pc := r.pc;
    if !pc.Rest? && !pc.Load? {
      var j :| 0 <= j < |q| && j <= |s.takers| && q[j] == pc.m;
      assert s'.head == Some(pc.m) ==> s.head == Some(pc.m);
    }
  }

  /** The head has not been unlinked, so it is not on the free list. */
  lemma HeadFresh(i: State, q: seq<nat>, stream: bool, s: State)
    requires Queue(i, q, stream) && HeadOk(q, s) && FreeOk(i, q, s)
    ensures s.head.Some? ==> s.head.v !in s.freed && s.head.v < |i.next| && s.next[s.head.v] == i.next[s.head.v]
  {
    if s.head.Some? {
      var c := |s.takers|;
      forall k | 0 <= k < |s.freed| ensures s.freed[k] != q[c] {
        assert Taken(q, s, s.freed[k]);
      }
    }
  }

  lemma QueueLink(i: State, q: seq<nat>, stream: bool, j: nat)
    requires Queue(i, q, stream) && j < |q|
    ensures q[j] < |i.next| && (i.next[q[j]] == Some(q[j]) ==> IsStream(q, stream, q[j]))
    ensures i.next[q[j]] == if IsStream(q, stream, q[j]) then Some(q[j]) else AtOr(q, j + 1)
    ensures IsStream(q, stream, q[j]) ==> j == |q| - 1
  {
    hide Seen;
    if j + 1 < |q| { assert q[j] != q[j + 1] && q[j] != q[|q| - 1]; }
  }

  /** Only the stream message ever links to itself. */
  lemma SelfLink(i: State, q: seq<nat>, stream: bool, s: State, j: nat)
    requires Queue(i, q, stream) && FreeOk(i, q, s) && LinksOk(i, s) && j < |q|
    ensures q[j] < |s.next| && (s.next[q[j]] == Some(q[j]) ==> IsStream(q, stream, q[j]))
  {
    var m := q[j];
    QueueLink(i, q, stream, j);
    assert i.free != Some(m) by { assert m in q; }
    hide Queue, IsStream;
    if m in s.freed {
      var k :| 0 <= k < |s.freed| && s.freed[k] == m;
      assert PushedOk(i, s, k);
    }
  }

  lemma PcBounded(i: State, q: seq<nat>, stream: bool, s: State, r: Reader)
    requires Queue(i, q, stream) && StartOk(i, q, stream, s) && Fixed(i, s) && PcOk(i, q, stream, s, r)
    ensures Bounded(s, r.pc)
  {}

  lemma NextGoto(i: State, q: seq<nat>, stream: bool, s: State, r: Reader)
    requires Queue(i, q, stream) && StartOk(i, q, stream, s) && HeadOk(q, s) && r.want > 0
    ensures PcOk(i, q, stream, s, Reader(r.want, Goto(s.head)))
  {
    if s.head.Some? { assert q[|s.takers|] == s.head.v; }
  }

  lemma NextCheck(i: State, q: seq<nat>, stream: bool, s: State, r: Reader)
    requires Queue(i, q, stream) && Fixed(i, s) && HeadOk(q, s) && FreeOk(i, q, s) && LinksOk(i, s)
             && StartOk(i, q, stream, s)
    requires PcOk(i, q, stream, s, r) && r.pc.CheckNext? && Bounded(s, r.pc)
    ensures PcOk(i, q, stream, s, Reader(r.want, NextPc(s, r.want, r.pc)))
  {
    var m := r.pc.m;
    var j :| 0 <= j < |q| && j <= |s.takers| && q[j] == m;
    SelfLink(i, q, stream, s, j);
    HeadFresh(i, q, stream, s);
    QueueLink(i, q, stream, j);
    hide Queue, FreeOk, LinksOk, StartOk, IsStream, HeadOk;
  }

  lemma NextLoad(i: State, q: seq<nat>, stream: bool, s: State, r: Reader)
    requires Queue(i, q, stream) && Fixed(i, s) && HeadOk(q, s) && FreeOk(i, q, s) && StartOk(i, q, stream, s)
    requires PcOk(i, q, stream, s, r) && r.pc.PktLoad? && Bounded(s, r.pc)
    ensures PcOk(i, q, stream, s, Reader(r.want, NextPc(s, r.want, r.pc)))
  {
    HeadFresh(i, q, stream, s);
    hide Queue, FreeOk, StartOk, IsStream, HeadOk;
  }

  lemma NextStart(i: State, q: seq<nat>, stream: bool, s: State, r: Reader)
    requires Queue(i, q, stream) && Fixed(i, s) && StartOk(i, q, stream, s)
    requires PcOk(i, q, stream, s, r) && r.pc.StrStart? && Bounded(s, r.pc)
    ensures PcOk(i, q, stream, s, Reader(r.want, NextPc(s, r.want, r.pc)))
  {
    var m := r.pc.m;
    if s.start[m] < s.size { UsedRest(i.size, i.start[m], i.end[m], s.start[m]); }
    hide Seen;
  }

  lemma NextOther(i: State, q: seq<nat>, stream: bool, s: State, r: Reader)
    requires Queue(i, q, stream) && Fixed(i, s) && StartOk(i, q, stream, s)
    requires PcOk(i, q, stream, s, r) && Bounded(s, r.pc)
    requires r.pc.Rest? || r.pc.PktTail? || r.pc.StrTail? || r.pc.Release? || r.pc.Link?
             || (r.pc.StrCasStart? && !TakesPart(s, r.pc))
          || (r.pc.StrDrain? && !Drains(s, r.pc) && s.start[r.pc.m] < i.size)
    ensures PcOk(i, q, stream, s, Reader(r.want, NextPc(s, r.want, r.pc)))
  {
    hide Seen, Queue, IsStream;
  }

  /** A reader that is draining has not drained yet. */
  lemma Draining(i: State, q: seq<nat>, stream: bool, s: State, t: nat)
    requires Queue(i, q, stream) && Inv(i, q, stream, s) && t < |s.readers| && s.readers[t].pc.StrDrain?
    ensures var m := s.readers[t].pc.m; m < |s.start| && s.start[m] < i.size && q != [] && m == q[|q| - 1]
    ensures |s.takers| == |q| && s.takers[|q| - 1] == t
  {
    var r := s.readers[t];
    assert PcOk(i, q, stream, s, r);
    assert Hand(r.pc) == Some(r.pc.m);
    var j :| 0 <= j < |s.takers| && Some(q[j]) == Hand(r.pc) && s.takers[j] == t;
    assert j == |q| - 1;
    hide FreeOk, LinksOk, TailOk, ReadersOk, PcOk;
  }

  predicate Succeeds(s: State, pc: Pc)
    requires Bounded(s, pc)
  {
    PopsPacket(s, pc) || PopsStream(s, pc) || Drains(s, pc) || TakesPart(s, pc)
  }

  /** One access takes a reader from one point of its call to the next with what it relies on there. */
  lemma PcNext(i: State, q: seq<nat>, stream: bool, s: State, t: nat)
    requires Queue(i, q, stream) && Inv(i, q, stream, s) && t < |s.readers|
    ensures Bounded(s, s.readers[t].pc)
    ensures var (want, pc) := (s.readers[t].want, s.readers[t].pc);
            !Succeeds(s, pc) ==> PcOk(i, q, stream, s, Reader(want, NextPc(s, want, pc)))
  {
    var (r, pc) := (s.readers[t], s.readers[t].pc);
    assert PcOk(i, q, stream, s, r);
    PcBounded(i, q, stream, s, r);
    if pc.StrDrain? { Draining(i, q, stream, s, t); }
    hide Queue, HeadOk, FreeOk, LinksOk, HandsOk, TailOk, DrainOk, ReadersOk, StartOk, PcOk;
    if !Succeeds(s, pc) {
      if pc.Load? || pc.PktCas? || pc.StrCasHead? {
        assert r.want > 0 by { PcWant(i, q, stream, s, r); }
        NextGoto(i, q, stream, s, r);
      } else if pc.CheckNext? {
        NextCheck(i, q, stream, s, r);
      } else if pc.PktLoad? {
        NextLoad(i, q, stream, s, r);
      } else if pc.StrStart? {
        NextStart(i, q, stream, s, r);
      } else {
        NextOther(i, q, stream, s, r);
      }
    }
  }

  lemma PcWant(i: State, q: seq<nat>, stream: bool, s: State, r: Reader)
    requires Queue(i, q, stream) && StartOk(i, q, stream, s) && PcOk(i, q, stream, s, r) && !r.pc.Rest?
    ensures r.want > 0
  {}

  // ----- each part of the invariant survives a step -----

  lemma HeadStep(i: State, q: seq<nat>, stream: bool, s: State, t: nat)
    requires Queue(i, q, stream) && Fixed(i, s) && HeadOk(q, s) && StartOk(i, q, stream, s)
    requires t < |s.readers| && PcOk(i, q, stream, s, s.readers[t]) && Bounded(s, s.readers[t].pc)
    ensures HeadOk(q, Advance(s, t)) && Later(s, Advance(s, t))
  {
    var pc := s.readers[t].pc;
    if PopsPacket(s, pc) || PopsStream(s, pc) {
      QueueLink(i, q, stream, |s.takers|);
    }
    hide Queue, NextPc, Claimed;
  }

  /** A message in hand was unlinked by its reader and is not on the free list. */
  lemma InHand(q: seq<nat>, s: State, t: nat)
    requires HandsOk(q, s) && t < |s.readers| && Hand(s.readers[t].pc).Some?
    ensures Taken(q, s, Hand(s.readers[t].pc).v) && Hand(s.readers[t].pc).v !in s.freed
  {
    var j :| 0 <= j < |s.takers| && Some(q[j]) == Hand(s.readers[t].pc) && s.takers[j] == t;
  }

  lemma TakenLater(q: seq<nat>, s: State, s': State, m: nat)
    requires Taken(q, s, m) && Later(s, s') && |s'.takers| <= |q|
    ensures Taken(q, s', m)
  {
    var j :| 0 <= j < |s.takers| <= |q| && q[j] == m;
  }

  lemma FreeStep(i: State, q: seq<nat>, stream: bool, s: State, t: nat)
    requires Fixed(i, s) && HandsOk(q, s) && FreeOk(i, q, s) && LinksOk(i, s)
    requires t < |s.readers| && Bounded(s, s.readers[t].pc) && HeadOk(q, Advance(s, t)) && Later(s, Advance(s, t))
    ensures FreeOk(i, q, Advance(s, t))
  {
    var (s', pc) := (Advance(s, t), s.readers[t].pc);
    hide NextPc, Claimed, Drains, TakesPart, PushedOk;
    if pc.Release? { InHand(q, s, t); }
    hide HandsOk;
    forall k | 0 <= k < |s'.freed| ensures Taken(q, s', s'.freed[k]) {
      if k < |s.freed| { assert Taken(q, s, s.freed[k]); }
      TakenLater(q, s, s', s'.freed[k]);
    }
  }

  lemma LinksStep(i: State, q: seq<nat>, s: State, t: nat)
    requires Fixed(i, s) && HandsOk(q, s) && FreeOk(i, q, s) && LinksOk(i, s)
    requires t < |s.readers| && Bounded(s, s.readers[t].pc)
    ensures LinksOk(i, Advance(s, t))
  {
    var (s', pc) := (Advance(s, t), s.readers[t].pc);
    LinkReader(s, t);
    hide NextPc, Claimed, Drains, TakesPart, Taken;
    if pc.Release? { InHand(q, s, t); }
    forall k | 0 <= k < |s'.freed| ensures PushedOk(i, s', k) {
      if k < |s.freed| {
        assert PushedOk(i, s, k);
        if pc.Link? && s.freed[k] == pc.m { PusherOf(i, s, t, k); }
      }
    }
    forall u | 0 <= u < |s'.readers| && s'.readers[u].pc.Link?
      ensures exists k :: 0 <= k < |s'.freed| && s'.freed[k] == s'.readers[u].pc.m && s'.pushers[k] == u
    {
      if u == t {
        assert s'.freed[|s.freed|] == pc.m;
      } else {
        var k :| 0 <= k < |s.freed| && s.freed[k] == s.readers[u].pc.m && s.pushers[k] == u;
        assert s'.freed[k] == s.freed[k];
      }
    }
  }

  lemma LinkReader(s: State, t: nat)
    requires t < |s.readers| && Bounded(s, s.readers[t].pc)
    ensures var (pc, pc') := (s.readers[t].pc, Advance(s, t).readers[t].pc);
            && (pc'.Link? <==> pc.Release?) && (pc'.Link? ==> pc'.m == pc.m && pc'.prev == s.free)
  {}

  /** The reader about to store a link is the one that pushed the message. */
  lemma PusherOf(i: State, s: State, t: nat, k: nat)
    requires LinksOk(i, s) && Distinct(s.freed) && t < |s.readers| && s.readers[t].pc.Link?
    requires k < |s.freed| && s.freed[k] == s.readers[t].pc.m
    ensures s.pushers[k] == t && s.readers[t].pc.prev == PrevFree(i, s.freed, k)
  {
    var j :| 0 <= j < |s.freed| && s.freed[j] == s.readers[t].pc.m && s.pushers[j] == t;
    assert j == k;
    assert PushedOk(i, s, k);
  }

  lemma StartStep(i: State, q: seq<nat>, stream: bool, s: State, t: nat)
    requires Queue(i, q, stream) && Fixed(i, s) && StartOk(i, q, stream, s)
    requires t < |s.readers| && PcOk(i, q, stream, s, s.readers[t]) && Bounded(s, s.readers[t].pc)
    ensures StartOk(i, q, stream, Advance(s, t))
    ensures stream && q != [] ==> Gone(i, s, q[|q| - 1]) <= Gone(i, Advance(s, t), q[|q| - 1])
    ensures var pc := s.readers[t].pc; TakesPart(s, pc) ==>
            Gone(i, Advance(s, t), pc.m) == Gone(i, s, pc.m) + s.readers[t].want
    ensures var pc := s.readers[t].pc; Drains(s, pc) ==> Gone(i, Advance(s, t), pc.m) == Whole(i, pc.m)
  {
    var (pc, want) := (s.readers[t].pc, s.readers[t].want);
    if TakesPart(s, pc) {
      Forward(i.size, i.start[pc.m], pc.start, want);
    }
    hide Queue, NextPc, Claimed, Seen;
  }

  lemma HandNext(s: State, t: nat)
    requires t < |s.readers| && Bounded(s, s.readers[t].pc)
    ensures var (pc, pc') := (s.readers[t].pc, Advance(s, t).readers[t].pc);
            && (PopsPacket(s, pc) || PopsStream(s, pc) ==>
                 Hand(pc) == None && Hand(pc') == Some(pc.m) && BeforeTail(pc'))
            && (!PopsPacket(s, pc) && !PopsStream(s, pc) && !pc.Release? ==> Hand(pc') == Hand(pc))
            && (pc.Release? ==> Hand(pc) == Some(pc.m) && Hand(pc') == None)
            && (pc.PktTail? || pc.StrTail? ==> Hand(pc) == Some(pc.m) && BeforeTail(pc) && !BeforeTail(pc'))
            && (!PopsPacket(s, pc) && !PopsStream(s, pc) && !pc.PktTail? && !pc.StrTail? ==>
                 (BeforeTail(pc') <==> BeforeTail(pc)))
            && (pc'.StrDrain? <==> PopsStream(s, pc) || (pc.StrDrain? && !Drains(s, pc)))
  {}

  lemma HandsKept(q: seq<nat>, s: State, s': State, t: nat)
    requires HandsOk(q, s) && t < |s.readers| == |s'.readers| && s'.takers == s.takers && s'.freed == s.freed
    requires forall u :: 0 <= u < |s.readers| && u != t ==> s'.readers[u] == s.readers[u]
    requires Hand(s'.readers[t].pc) == Hand(s.readers[t].pc)
    ensures HandsOk(q, s')
  {
    hide Hand;
    forall u | 0 <= u < |s'.readers| ensures Hand(s'.readers[u].pc) == Hand(s.readers[u].pc) {}
  }

  lemma HandsTake(q: seq<nat>, s: State, s': State, t: nat)
    requires HandsOk(q, s) && Distinct(q) && t < |s.readers| == |s'.readers| && s'.takers == s.takers + [t]
             && s'.freed == s.freed
    requires |s.takers| < |q| && q[|s.takers|] !in s.freed
    requires forall u :: 0 <= u < |s.readers| && u != t ==> s'.readers[u] == s.readers[u]
    requires Hand(s.readers[t].pc) == None && Hand(s'.readers[t].pc) == Some(q[|s.takers|])
    ensures HandsOk(q, s')
  {
    hide Hand;
    forall u | 0 <= u < |s'.readers| && Hand(s'.readers[u].pc).Some?
      ensures exists j :: 0 <= j < |s'.takers| && Some(q[j]) == Hand(s'.readers[u].pc) && s'.takers[j] == u
    {
      if u == t {
        assert s'.takers[|s.takers|] == t;
      } else {
        var j :| 0 <= j < |s.takers| && Some(q[j]) == Hand(s.readers[u].pc) && s.takers[j] == u;
        assert s'.takers[j] == u;
      }
    }
  }

  lemma HandsGive(q: seq<nat>, s: State, s': State, t: nat, m: nat)
    requires HandsOk(q, s) && Distinct(q) && t < |s.readers| == |s'.readers| && s'.takers == s.takers
             && s'.freed == s.freed + [m]
    requires forall u :: 0 <= u < |s.readers| && u != t ==> s'.readers[u] == s.readers[u]
    requires Hand(s.readers[t].pc) == Some(m) && Hand(s'.readers[t].pc) == None
    ensures HandsOk(q, s')
  {
    hide Hand;
    var k :| 0 <= k < |s.takers| && Some(q[k]) == Hand(s.readers[t].pc) && s.takers[k] == t;
    forall j | 0 <= j < |s'.takers|
      ensures s'.takers[j] < |s'.readers| && (q[j] !in s'.freed <==> Hand(s'.readers[s'.takers[j]].pc) == Some(q[j]))
    {
      assert q[j] in s'.freed <==> q[j] in s.freed || q[j] == m;
    }
    forall u | 0 <= u < |s'.readers| && Hand(s'.readers[u].pc).Some?
      ensures exists j :: 0 <= j < |s'.takers| && Some(q[j]) == Hand(s'.readers[u].pc) && s'.takers[j] == u
    {
      var j :| 0 <= j < |s.takers| && Some(q[j]) == Hand(s.readers[u].pc) && s.takers[j] == u;
    }
  }

  lemma HandsStep(i: State, q: seq<nat>, stream: bool, s: State, t: nat)
    requires Queue(i, q, stream) && HeadOk(q, s) && FreeOk(i, q, s) && HandsOk(q, s)
    requires t < |s.readers| && Bounded(s, s.readers[t].pc)
    ensures HandsOk(q, Advance(s, t))
  {
    var (s', pc) := (Advance(s, t), s.readers[t].pc);
    HandNext(s, t);
    HeadFresh(i, q, stream, s);
    assert Distinct(q);
    hide Queue, NextPc, Claimed, Drains, TakesPart, FreeOk, Hand, HandsOk, BeforeTail;
    if PopsPacket(s, pc) || PopsStream(s, pc) {
      HandsTake(q, s, s', t);
    } else if pc.Release? {
      HandsGive(q, s, s', t, pc.m);
    } else {
      HandsKept(q, s, s', t);
    }
  }

  /** The message in hand, its place in the queue, and its link as the writer left it. */
  lemma HandPlace(i: State, q: seq<nat>, stream: bool, s: State, t: nat) returns (j: nat)
    requires Queue(i, q, stream) && FreeOk(i, q, s) && HandsOk(q, s) && t < |s.readers| && Hand(s.readers[t].pc).Some?
    ensures j < |s.takers| && s.takers[j] == t && Hand(s.readers[t].pc) == Some(q[j]) && q[j] < |s.next|
    ensures s.next[q[j]] == if IsStream(q, stream, q[j]) then Some(q[j]) else AtOr(q, j + 1)
  {
    InHand(q, s, t);
    j :| 0 <= j < |s.takers| && Some(q[j]) == Hand(s.readers[t].pc) && s.takers[j] == t;
    QueueLink(i, q, stream, j);
  }

  /** A step that neither unlinks nor clears the tail leaves it as far as it was. */
  lemma TailSame(q: seq<nat>, s: State, s': State, t: nat)
    requires |s.takers| <= |q| && t < |s.readers| == |s'.readers| && s'.takers == s.takers
    requires forall u :: 0 <= u < |s.readers| && u != t ==> s'.readers[u] == s.readers[u]
    requires var (pc, pc') := (s.readers[t].pc, s'.readers[t].pc);
             && (BeforeTail(pc') <==> BeforeTail(pc))
             && (Hand(pc') == Hand(pc) || (!BeforeTail(pc) && Hand(pc') == None))
    ensures TailDone(q, s') <==> TailDone(q, s)
  {
    hide Hand, BeforeTail;
  }

  lemma TailClear(i: State, q: seq<nat>, stream: bool, s: State, t: nat)
    requires Queue(i, q, stream) && StartOk(i, q, stream, s) && FreeOk(i, q, s) && HandsOk(q, s) && TailOk(i, q, s)
    requires t < |s.readers| && PcOk(i, q, stream, s, s.readers[t]) && Bounded(s, s.readers[t].pc)
    requires s.readers[t].pc.PktTail? || s.readers[t].pc.StrTail?
    ensures TailOk(i, q, Advance(s, t))
  {
    var (s', pc) := (Advance(s, t), s.readers[t].pc);
    HandNext(s, t);
    assert Distinct(q);
    var j := HandPlace(i, q, stream, s, t);
    assert IsStream(q, stream, pc.m) <==> pc.StrTail?;
    hide Queue, NextPc, Claimed, Drains, TakesPart, FreeOk, Hand, BeforeTail, PcOk, StartOk, HandsOk;
  }

  lemma TailStep(i: State, q: seq<nat>, stream: bool, s: State, t: nat)
    requires Queue(i, q, stream) && StartOk(i, q, stream, s) && HeadOk(q, s) && FreeOk(i, q, s) && HandsOk(q, s)
             && TailOk(i, q, s)
    requires t < |s.readers| && PcOk(i, q, stream, s, s.readers[t]) && Bounded(s, s.readers[t].pc)
             && HeadOk(q, Advance(s, t))
    ensures TailOk(i, q, Advance(s, t))
  {
    var (s', pc) := (Advance(s, t), s.readers[t].pc);
    hide Queue, NextPc, Claimed, Drains, TakesPart, FreeOk, PcOk, StartOk, HandsOk;
    if pc.PktTail? || pc.StrTail? {
      TailClear(i, q, stream, s, t);
    } else {
      HandNext(s, t);
      hide Hand, BeforeTail;
      if !PopsPacket(s, pc) && !PopsStream(s, pc) { TailSame(q, s, s', t); }
    }
  }

  lemma DrainStep(i: State, q: seq<nat>, stream: bool, s: State, t: nat)
    requires Queue(i, q, stream) && Inv(i, q, stream, s)
    requires t < |s.readers| && Bounded(s, s.readers[t].pc) && HeadOk(q, Advance(s, t))
             && StartOk(i, q, stream, Advance(s, t))
    ensures DrainOk(i, q, stream, Advance(s, t))
  {
    var (s', pc) := (Advance(s, t), s.readers[t].pc);
    assert PcOk(i, q, stream, s, s.readers[t]);
    HandNext(s, t);
    if pc.StrDrain? { Draining(i, q, stream, s, t); }
    assert Distinct(q);
    hide Queue, NextPc, Claimed, FreeOk, LinksOk, TailOk, ReadersOk, Hand, Seen, HandsOk;
  }

  lemma SuccessPc(i: State, q: seq<nat>, stream: bool, s: State, t: nat)
    requires Queue(i, q, stream) && Fixed(i, s) && HeadOk(q, s) && StartOk(i, q, stream, s)
    requires t < |s.readers| && PcOk(i, q, stream, s, s.readers[t]) && Bounded(s, s.readers[t].pc)
             && Succeeds(s, s.readers[t].pc)
    requires StartOk(i, q, stream, Advance(s, t)) && Later(s, Advance(s, t))
    requires stream && q != [] ==> Gone(i, s, q[|q| - 1]) <= Gone(i, Advance(s, t), q[|q| - 1])
    ensures PcOk(i, q, stream, Advance(s, t), Advance(s, t).readers[t])
  {
    var (s', pc) := (Advance(s, t), s.readers[t].pc);
    var j :| 0 <= j < |q| && j <= |s.takers| && q[j] == pc.m;
    assert Seen(q, s', pc.m);
    hide Queue, Claimed;
  }

  lemma ReadersStep(i: State, q: seq<nat>, stream: bool, s: State, t: nat)
    requires Queue(i, q, stream) && Inv(i, q, stream, s) && t < |s.readers| && Bounded(s, s.readers[t].pc)
    requires StartOk(i, q, stream, Advance(s, t)) && HeadOk(q, Advance(s, t)) && Later(s, Advance(s, t))
    requires stream && q != [] ==> Gone(i, s, q[|q| - 1]) <= Gone(i, Advance(s, t), q[|q| - 1])
    ensures ReadersOk(i, q, stream, Advance(s, t))
  {
    var (s', r) := (Advance(s, t), s.readers[t]);
    assert PcOk(i, q, stream, s, r);
    PcNext(i, q, stream, s, t);
    hide Queue, HeadOk, FreeOk, LinksOk, HandsOk, TailOk, DrainOk, StartOk, PcOk, NextPc, Claimed, Gone, Later, Drains,
         TakesPart;
    if Succeeds(s, r.pc) {
      SuccessPc(i, q, stream, s, t);
    } else {
      PcStable(i, q, stream, s, s', Reader(r.want, NextPc(s, r.want, r.pc)));
    }
    forall u | 0 <= u < |s'.readers| ensures PcOk(i, q, stream, s', s'.readers[u]) {
      if u != t {
        assert PcOk(i, q, stream, s, s.readers[u]);
        PcStable(i, q, stream, s, s', s.readers[u]);
      }
    }
  }

  lemma AdvanceInv(i: State, q: seq<nat>, stream: bool, s: State, t: nat)
    requires Queue(i, q, stream) && Inv(i, q, stream, s) && t < |s.readers|
    ensures Bounded(s, s.readers[t].pc) && Inv(i, q, stream, Advance(s, t))
  {
    var (s', r) := (Advance(s, t), s.readers[t]);
    assert PcOk(i, q, stream, s, r);
    PcBounded(i, q, stream, s, r);
    hide Queue, HeadOk, FreeOk, LinksOk, HandsOk, TailOk, DrainOk, StartOk, PcOk, NextPc, Claimed, ReadersOk, Gone,
         Later;
    HeadStep(i, q, stream, s, t);
    StartStep(i, q, stream, s, t);
    FreeStep(i, q, stream, s, t);
    LinksStep(i, q, s, t);
    HandsStep(i, q, stream, s, t);
    TailStep(i, q, stream, s, t);
    DrainStep(i, q, stream, s, t);
    ReadersStep(i, q, stream, s, t);
  }

  lemma BeginInv(i: State, q: seq<nat>, stream: bool, s: State, t: nat, want: nat)
    requires Queue(i, q, stream) && Inv(i, q, stream, s) && Legal(s, Start(t, want))
    ensures Inv(i, q, stream, Begin(s, t, want))
  {
    hide Queue, HeadOk, FreeOk, LinksOk, HandsOk, TailOk, DrainOk, StartOk, ReadersOk;
    HandsKept(q, s, Begin(s, t, want), t);
    BeginLinks(i, s, t, want);
    BeginFree(i, q, s, t, want);
    BeginTail(i, q, stream, s, t, want);
    BeginReaders(i, q, stream, s, t, want);
  }

  lemma BeginFree(i: State, q: seq<nat>, s: State, t: nat, want: nat)
    requires HeadOk(q, s) && FreeOk(i, q, s) && Legal(s, Start(t, want))
    ensures HeadOk(q, Begin(s, t, want)) && FreeOk(i, q, Begin(s, t, want))
  {
    var s' := Begin(s, t, want);
    forall k | 0 <= k < |s'.freed| ensures Taken(q, s', s'.freed[k]) { assert Taken(q, s, s.freed[k]); }
    hide Taken;
  }

  lemma BeginTail(i: State, q: seq<nat>, stream: bool, s: State, t: nat, want: nat)
    requires TailOk(i, q, s) && DrainOk(i, q, stream, s) && Legal(s, Start(t, want))
    ensures TailOk(i, q, Begin(s, t, want)) && DrainOk(i, q, stream, Begin(s, t, want))
  {}

  lemma BeginReaders(i: State, q: seq<nat>, stream: bool, s: State, t: nat, want: nat)
    requires Queue(i, q, stream) && StartOk(i, q, stream, s) && ReadersOk(i, q, stream, s) && Legal(s, Start(t, want))
    ensures StartOk(i, q, stream, Begin(s, t, want)) && ReadersOk(i, q, stream, Begin(s, t, want))
  {
    var s' := Begin(s, t, want);
    assert StartOk(i, q, stream, s');
    hide Queue;
    forall u | 0 <= u < |s'.readers| ensures PcOk(i, q, stream, s', s'.readers[u]) {
      if u != t {
        assert PcOk(i, q, stream, s, s.readers[u]);
        SamePc(i, q, stream, s, s', s.readers[u]);
      }
    }
  }

  lemma SamePc(i: State, q: seq<nat>, stream: bool, s: State, s': State, r: Reader)
    requires Queue(i, q, stream) && StartOk(i, q, stream, s) && StartOk(i, q, stream, s') && PcOk(i, q, stream, s, r)
    requires s' == s.(readers := s'.readers)
    ensures PcOk(i, q, stream, s', r)
  {
    assert forall m :: Seen(q, s, m) ==> Seen(q, s', m);
  }

  lemma BeginLinks(i: State, s: State, t: nat, want: nat)
    requires LinksOk(i, s) && Legal(s, Start(t, want))
    ensures LinksOk(i, Begin(s, t, want))
  {
    var s' := Begin(s, t, want);
    forall k | 0 <= k < |s'.freed| ensures PushedOk(i, s', k) { assert PushedOk(i, s, k); }
    forall u | 0 <= u < |s'.readers| && s'.readers[u].pc.Link?
      ensures exists k :: 0 <= k < |s'.freed| && s'.freed[k] == s'.readers[u].pc.m && s'.pushers[k] == u
    {
      var k :| 0 <= k < |s.freed| && s.freed[k] == s.readers[u].pc.m && s.pushers[k] == u;
    }
  }

  // ----- what the readers claimed -----

  /** The bytes of the stream message claimed so far. */
  function StreamLen(q: seq<nat>, stream: bool, cs: seq<Claim>): nat {
    if cs == [] then 0
    else
      var last := cs[|cs| - 1];
      StreamLen(q, stream, cs[..|cs| - 1]) + if IsStream(q, stream, last.m) then last.len else 0
  }

  /** The packets claimed so far, in the order of the claims. */
  function Packets(q: seq<nat>, stream: bool, cs: seq<Claim>): seq<nat> {
    if cs == [] then []
    else
      var last := cs[|cs| - 1];
      Packets(q, stream, cs[..|cs| - 1]) + if IsStream(q, stream, last.m) then [] else [last.m]
  }

  /** Each claim on the stream starts where the one before ended; each claim on a packet is a prefix of it. A
      claim is not empty and takes as much as its reader wants or all that is there. */
  ghost predicate ClaimsFit(i: State, q: seq<nat>, stream: bool, cs: seq<Claim>)
    requires i.size > 0 && |i.start| == |i.end|
  {
    cs == [] ||
    var (before, last) := (cs[..|cs| - 1], cs[|cs| - 1]);
    && ClaimsFit(i, q, stream, before)
    && last.m < |i.start| && i.start[last.m] < i.size && i.end[last.m] < i.size && 0 < last.len <= last.want
    && (if IsStream(q, stream, last.m) then
          var n := StreamLen(q, stream, before);
          && last.pos == Idx(i.size, i.start[last.m] + n)
          && (last.len == last.want || n + last.len == Whole(i, last.m))
        else last.pos == i.start[last.m] && last.len == Min(Whole(i, last.m), last.want))
  }

  function PacketCount(q: seq<nat>, stream: bool): nat { if stream && q != [] then |q| - 1 else |q| }

  ghost predicate ClaimsOk(i: State, q: seq<nat>, stream: bool, s: State)
    requires Queue(i, q, stream) && StartOk(i, q, stream, s)
  {
    && |s.takers| <= |q| && ClaimsFit(i, q, stream, s.claims)
    && Packets(q, stream, s.claims) == q[..Min(|s.takers|, PacketCount(q, stream))]
    && StreamLen(q, stream, s.claims) == (if stream && q != [] then Gone(i, s, q[|q| - 1]) else 0)
  }

  lemma AppendClaim(q: seq<nat>, stream: bool, cs: seq<Claim>, c: Claim)
    ensures (cs + [c])[..|cs|] == cs && (cs + [c])[|cs|] == c
    ensures StreamLen(q, stream, cs + [c]) == StreamLen(q, stream, cs) + if IsStream(q, stream, c.m) then c.len else 0
    ensures Packets(q, stream, cs + [c]) == Packets(q, stream, cs) + if IsStream(q, stream, c.m) then [] else [c.m]
  {
    assert (cs + [c])[..|cs|] == cs;
  }

  /** The range claimed from the stream starts where the stream now starts and is what it loses. */
  lemma StreamClaimIs(i: State, q: seq<nat>, stream: bool, s: State, t: nat)
    requires Queue(i, q, stream) && Fixed(i, s) && StartOk(i, q, stream, s) && t < |s.readers|
    requires PcOk(i, q, stream, s, s.readers[t])
    requires Bounded(s, s.readers[t].pc) && (Drains(s, s.readers[t].pc) || TakesPart(s, s.readers[t].pc))
    ensures StartOk(i, q, stream, Advance(s, t)) && |Claimed(s, t)| == 1 && stream && q != []
    ensures var (c, m) := (Claimed(s, t)[0], q[|q| - 1]);
            && c.m == m && c.pos == Idx(i.size, i.start[m] + Gone(i, s, m)) && 0 < c.len <= c.want
            && (c.len == c.want || Gone(i, s, m) + c.len == Whole(i, m))
            && Gone(i, Advance(s, t), m) == Gone(i, s, m) + c.len
  {
    var pc := s.readers[t].pc;
    StartStep(i, q, stream, s, t);
    IdxSpace(i.size, i.start[pc.m], s.start[pc.m]);
    UsedRest(i.size, i.start[pc.m], i.end[pc.m], s.start[pc.m]);
    hide Queue, Seen, NextPc;
  }

  lemma StreamClaim(i: State, q: seq<nat>, stream: bool, s: State, t: nat)
    requires Queue(i, q, stream) && Fixed(i, s) && StartOk(i, q, stream, s) && ClaimsOk(i, q, stream, s)
             && t < |s.readers|
    requires PcOk(i, q, stream, s, s.readers[t])
    requires Bounded(s, s.readers[t].pc) && (Drains(s, s.readers[t].pc) || TakesPart(s, s.readers[t].pc))
    ensures StartOk(i, q, stream, Advance(s, t)) && ClaimsOk(i, q, stream, Advance(s, t))
  {
    hide PcOk, Queue, Advance, Claimed, Packets, StreamLen, Gone, Idx;
    StreamClaimIs(i, q, stream, s, t);
    var c := Claimed(s, t)[0];
    AppendClaim(q, stream, s.claims, c);
    StreamAdvance(s, t);
    assert Claimed(s, t) == [c];
  }

  lemma StreamAdvance(s: State, t: nat)
    requires t < |s.readers| && Bounded(s, s.readers[t].pc)
    requires Drains(s, s.readers[t].pc) || TakesPart(s, s.readers[t].pc)
    ensures Advance(s, t).claims == s.claims + Claimed(s, t) && Advance(s, t).takers == s.takers
    ensures |Claimed(s, t)| == 1
  {
    hide NextPc;
  }

  lemma PacketClaimIs(i: State, q: seq<nat>, stream: bool, s: State, t: nat)
    requires Queue(i, q, stream) && Fixed(i, s) && HeadOk(q, s) && StartOk(i, q, stream, s) && t < |s.readers|
    requires PcOk(i, q, stream, s, s.readers[t])
    requires Bounded(s, s.readers[t].pc) && PopsPacket(s, s.readers[t].pc)
    ensures var n := |s.takers|; n < PacketCount(q, stream) && !IsStream(q, stream, q[n])
    ensures |Claimed(s, t)| == 1 && Advance(s, t).start == s.start && Advance(s, t).takers == s.takers + [t]
    ensures var (c, m) := (Claimed(s, t)[0], q[|s.takers|]);
            && m < |i.start| && i.start[m] < i.size && i.end[m] < i.size
            && c.m == m && c.pos == i.start[m] && c.len == Min(Whole(i, m), c.want) && c.len > 0
  {
    hide Seen, NextPc;
  }

  lemma PacketClaim(i: State, q: seq<nat>, stream: bool, s: State, t: nat)
    requires Queue(i, q, stream) && Fixed(i, s) && HeadOk(q, s) && StartOk(i, q, stream, s)
             && ClaimsOk(i, q, stream, s) && t < |s.readers|
    requires PcOk(i, q, stream, s, s.readers[t])
    requires Bounded(s, s.readers[t].pc) && PopsPacket(s, s.readers[t].pc)
    ensures StartOk(i, q, stream, Advance(s, t)) && ClaimsOk(i, q, stream, Advance(s, t))
  {
    PacketClaimIs(i, q, stream, s, t);
    StartStep(i, q, stream, s, t);
    var (n, c) := (|s.takers|, Claimed(s, t)[0]);
    AppendClaim(q, stream, s.claims, c);
    assert Advance(s, t).claims == s.claims + [c];
    assert q[..n] + [q[n]] == q[..n + 1];
    hide PcOk, Queue, Advance, Claimed, Packets, StreamLen, Idx, HeadOk, IsStream;
  }

  lemma NoClaim(i: State, q: seq<nat>, stream: bool, s: State, t: nat)
    requires Queue(i, q, stream) && Fixed(i, s) && HeadOk(q, s) && StartOk(i, q, stream, s)
             && ClaimsOk(i, q, stream, s) && t < |s.readers|
    requires PcOk(i, q, stream, s, s.readers[t])
    requires Bounded(s, s.readers[t].pc) && Claimed(s, t) == []
    requires StartOk(i, q, stream, Advance(s, t))
    ensures ClaimsOk(i, q, stream, Advance(s, t))
  {
    var (r, pc, s') := (s.readers[t], s.readers[t].pc, Advance(s, t));
    assert s'.claims == s.claims && s'.start == s.start;
    assert PopsStream(s, pc) ==> |s.takers| == |q| - 1;
    hide NextPc, Packets, StreamLen, Seen, ClaimsFit;
  }

  lemma AdvanceClaims(i: State, q: seq<nat>, stream: bool, s: State, t: nat)
    requires Queue(i, q, stream) && Inv(i, q, stream, s) && ClaimsOk(i, q, stream, s) && t < |s.readers|
    ensures Bounded(s, s.readers[t].pc) && Inv(i, q, stream, Advance(s, t)) && ClaimsOk(i, q, stream, Advance(s, t))
  {
    AdvanceInv(i, q, stream, s, t);
    var pc := s.readers[t].pc;
    assert PcOk(i, q, stream, s, s.readers[t]);
    hide Queue, HeadOk, FreeOk, LinksOk, HandsOk, TailOk, DrainOk, StartOk, ReadersOk, PcOk, ClaimsOk, Advance;
    if Drains(s, pc) || TakesPart(s, pc) {
      StreamClaim(i, q, stream, s, t);
    } else if PopsPacket(s, pc) {
      PacketClaim(i, q, stream, s, t);
    } else {
      NoClaim(i, q, stream, s, t);
    }
  }

  // ----- whole runs -----

  ghost predicate LegalRun(s: State, ls: seq<Label>)
    decreases |ls|
  {
    ls != [] ==> Legal(s, ls[0]) && LegalRun(Step(s, ls[0]), ls[1..])
  }

  ghost function Exec(s: State, ls: seq<Label>): State
    requires LegalRun(s, ls)
    decreases |ls|
  {
    if ls == [] then s else Exec(Step(s, ls[0]), ls[1..])
  }

  ghost predicate Good(i: State, q: seq<nat>, stream: bool, s: State)
    requires Queue(i, q, stream)
  {
    Inv(i, q, stream, s) && ClaimsOk(i, q, stream, s)
  }

  lemma InitialGood(i: State, q: seq<nat>, stream: bool)
    requires Queue(i, q, stream)
    ensures Good(i, q, stream, i)
  {
    assert StartOk(i, q, stream, i);
    assert q[..0] == [];
  }

  lemma StepGood(i: State, q: seq<nat>, stream: bool, s: State, l: Label)
    requires Queue(i, q, stream) && Good(i, q, stream, s) && Legal(s, l)
    ensures Good(i, q, stream, Step(s, l))
  {
    if l.Run? {
      AdvanceClaims(i, q, stream, s, l.t);
    } else {
      BeginInv(i, q, stream, s, l.t, l.want);
      assert ClaimsOk(i, q, stream, Step(s, l)) by {
        hide Queue, Inv, ClaimsFit, Packets, StreamLen;
      }
    }
    hide Queue, Inv, ClaimsOk;
  }

  /** The invariant and the account of the claims hold after every run of any number of readers. */
  lemma {:induction false} RunGood(i: State, q: seq<nat>, stream: bool, s: State, ls: seq<Label>)
    requires Queue(i, q, stream) && Good(i, q, stream, s) && LegalRun(s, ls)
    ensures Good(i, q, stream, Exec(s, ls))
    decreases |ls|
  {
    hide Queue, Good, Step, Legal;
    if ls != [] {
      StepGood(i, q, stream, s, ls[0]);
      RunGood(i, q, stream, Step(s, ls[0]), ls[1..]);
    }
  }

  /** The bytes claimed from the stream message, in the order of the claims. */
  ghost function StreamBytes<B>(buf: seq<B>, q: seq<nat>, stream: bool, cs: seq<Claim>): seq<B>
    requires |buf| > 0
  {
    if cs == [] then []
    else
      var last := cs[|cs| - 1];
      StreamBytes(buf, q, stream, cs[..|cs| - 1]) + if IsStream(q, stream, last.m) then Read(buf, last.pos, last.len)
          else []
  }

  /** Claims that fit together deliver the first bytes of the stream message, in order, none twice. */
  lemma {:induction false} StreamPrefix<B>(i: State, q: seq<nat>, stream: bool, cs: seq<Claim>, buf: seq<B>)
    requires i.size > 0 && |i.start| == |i.end| && ClaimsFit(i, q, stream, cs) && |buf| == i.size
    requires stream && q != [] && q[|q| - 1] < |i.start|
    ensures StreamBytes(buf, q, stream, cs) == Read(buf, i.start[q[|q| - 1]], StreamLen(q, stream, cs))
  {
    if cs != [] {
      var (before, last) := (cs[..|cs| - 1], cs[|cs| - 1]);
      StreamPrefix(i, q, stream, before, buf);
      ReadSplit(buf, i.start[q[|q| - 1]], StreamLen(q, stream, before), last.len);
    }
  }

  /** Claim `k` covers the offsets of the stream message from `StreamLen(cs[..k])` on. */
  ghost predicate Covers(q: seq<nat>, stream: bool, cs: seq<Claim>, k: nat, x: nat) {
    && k < |cs| && IsStream(q, stream, cs[k].m)
    && StreamLen(q, stream, cs[..k]) <= x < StreamLen(q, stream, cs[..k]) + cs[k].len
  }

  /** Every claimed offset of the stream message belongs to exactly one claim. */
  lemma {:induction false} OneOwner(q: seq<nat>, stream: bool, cs: seq<Claim>, x: nat) returns (k: nat)
    requires x < StreamLen(q, stream, cs)
    ensures Covers(q, stream, cs, k, x) && forall j: nat :: Covers(q, stream, cs, j, x) ==> j == k
  {
    var n := |cs| - 1;
    assert cs[..n + 1] == cs;
    if x < StreamLen(q, stream, cs[..n]) {
      k := OneOwner(q, stream, cs[..n], x);
      forall j: nat | j <= n ensures cs[..n][..j] == cs[..j] {}
      forall j: nat | Covers(q, stream, cs, j, x) ensures j == k {
        if j < n { assert Covers(q, stream, cs[..n], j, x); }
      }
    } else {
      k := n;
      forall j: nat | Covers(q, stream, cs, j, x) ensures j == k {
        CoveredBelow(q, stream, cs, j, x, n);
      }
    }
  }

  lemma {:induction false} LenGrows(q: seq<nat>, stream: bool, cs: seq<Claim>, a: nat, b: nat)
    requires a <= b <= |cs|
    ensures StreamLen(q, stream, cs[..a]) <= StreamLen(q, stream, cs[..b])
  {
    if a < b {
      LenGrows(q, stream, cs, a, b - 1);
      assert cs[..b][..b - 1] == cs[..b - 1];
    }
  }

  lemma CoveredBelow(q: seq<nat>, stream: bool, cs: seq<Claim>, j: nat, x: nat, n: nat)
    requires Covers(q, stream, cs, j, x) && n <= |cs|
    ensures j < n ==> x < StreamLen(q, stream, cs[..n])
  {
    assert cs[..j + 1][..j] == cs[..j];
    if j < n { LenGrows(q, stream, cs, j + 1, n); }
  }

  lemma {:induction false} FitAt(i: State, q: seq<nat>, stream: bool, cs: seq<Claim>, k: nat)
    requires i.size > 0 && |i.start| == |i.end| && ClaimsFit(i, q, stream, cs) && k < |cs|
    ensures cs[k].m < |i.start| && i.start[cs[k].m] < i.size
    ensures IsStream(q, stream, cs[k].m) ==> cs[k].pos == Idx(i.size, i.start[cs[k].m] + StreamLen(q, stream, cs[..k]))
  {
    if k < |cs| - 1 {
      FitAt(i, q, stream, cs[..|cs| - 1], k);
      assert cs[..|cs| - 1][..k] == cs[..k];
    }
  }

  /** No place of the ring is in two claims on the stream message. */
  lemma RangesDisjoint(i: State, q: seq<nat>, stream: bool, cs: seq<Claim>, k: nat, l: nat, a: nat, b: nat)
    requires i.size > 0 && |i.start| == |i.end| && ClaimsFit(i, q, stream, cs) && StreamLen(q, stream, cs) <= i.size
    requires k < l < |cs| && IsStream(q, stream, cs[k].m) && IsStream(q, stream, cs[l].m) && a < cs[k].len
             && b < cs[l].len
    ensures Idx(i.size, cs[k].pos + a) != Idx(i.size, cs[l].pos + b)
  {
    hide Idx, Space, ClaimsFit, StreamLen;
    FitAt(i, q, stream, cs, k);
    FitAt(i, q, stream, cs, l);
    var (at, x, y) := (i.start[cs[k].m], StreamLen(q, stream, cs[..k]) + a, StreamLen(q, stream, cs[..l]) + b);
    CoveredBelow(q, stream, cs, k, x, l);
    CoveredBelow(q, stream, cs, l, y, |cs|);
    assert cs[..|cs|] == cs;
    IdxTwice(i.size, at + StreamLen(q, stream, cs[..k]), a);
    IdxTwice(i.size, at + StreamLen(q, stream, cs[..l]), b);
    SpaceIdx(i.size, at, x);
    SpaceIdx(i.size, at, y);
  }

  /** Safety of every run: the packets claimed are the first of the queue, each once and in order; the
      bytes claimed from the stream are its first bytes, in order; what is left is the rest of it; and
      no reader ever holds a message it cannot use. */
  lemma ReadersSafe<B>(i: State, q: seq<nat>, stream: bool, ls: seq<Label>, buf: seq<B>)
    requires Queue(i, q, stream) && LegalRun(i, ls) && |buf| == i.size
    ensures var s := Exec(i, ls);
            && |s.takers| <= |q| && ClaimsFit(i, q, stream, s.claims)
            && Packets(q, stream, s.claims) == q[..Min(|s.takers|, PacketCount(q, stream))]
            && (forall t :: 0 <= t < |s.readers| ==> Bounded(s, s.readers[t].pc))
    ensures stream ==>
              var (s, m) := (Exec(i, ls), q[|q| - 1]);
              && |s.start| == |i.start| && s.end == i.end && s.start[m] <= i.size
              && StreamBytes(buf, q, stream, s.claims) == Read(buf, i.start[m], StreamLen(q, stream, s.claims))
              && StreamLen(q, stream, s.claims)
                   + (if s.start[m] == i.size then 0 else Used(i.size, s.start[m], i.end[m])) == Whole(i, m)
  {
    InitialGood(i, q, stream);
    RunGood(i, q, stream, i, ls);
    var s := Exec(i, ls);
    forall t | 0 <= t < |s.readers| ensures Bounded(s, s.readers[t].pc) {
      assert PcOk(i, q, stream, s, s.readers[t]);
      PcBounded(i, q, stream, s, s.readers[t]);
    }
    if stream {
      var m := q[|q| - 1];
      StreamPrefix(i, q, stream, s.claims, buf);
      if s.start[m] < i.size { UsedRest(i.size, i.start[m], i.end[m], s.start[m]); }
    }
    hide Exec, LegalRun, ClaimsFit, StreamBytes, StreamLen, Packets, FreeOk, LinksOk, HandsOk, TailOk, DrainOk,
         ReadersOk, Bounded;
  }

  /** When all calls have returned, the queue is empty at both ends or at neither, the messages put on
      the free list are exactly those unlinked, and they are linked in the order they were put there. */
  lemma AtRest(i: State, q: seq<nat>, stream: bool, ls: seq<Label>)
    requires Queue(i, q, stream) && LegalRun(i, ls)
    requires forall t :: 0 <= t < |Exec(i, ls).readers| ==> Exec(i, ls).readers[t].pc == Rest
    ensures var s := Exec(i, ls);
            && |s.takers| <= |q| && s.head == AtOr(q, |s.takers|)
            && (s.head.None? <==> s.tail.None?) && (s.tail.Some? ==> s.tail == i.tail)
            && Distinct(s.freed) && (forall m :: m in s.freed <==> m in q[..|s.takers|])
            && s.free == PrevFree(i, s.freed, |s.freed|) && |s.next| == |i.next|
            && (forall k :: 0 <= k < |s.freed| ==>
                 s.freed[k] < |s.next| && s.next[s.freed[k]] == PrevFree(i, s.freed, k))
  {
    InitialGood(i, q, stream);
    RunGood(i, q, stream, i, ls);
    var s := Exec(i, ls);
    hide Exec, LegalRun, ClaimsOk;
    assert q != [] ==> i.tail == Some(q[|q| - 1]);
    forall m | m in s.freed ensures m in q[..|s.takers|] {
      var k :| 0 <= k < |s.freed| && s.freed[k] == m;
      assert Taken(q, s, s.freed[k]);
    }
    forall k | 0 <= k < |s.freed| ensures s.freed[k] < |s.next| && s.next[s.freed[k]] == PrevFree(i, s.freed, k) {
      assert PushedOk(i, s, k);
    }
    hide Queue, StartOk, DrainOk, ReadersOk;
  }
}
