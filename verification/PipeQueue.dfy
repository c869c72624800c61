/** What a pipe promises, told without a ring: a queue of messages, packets first, at most one stream
    message and that one last; and what every run of reads, writes and a hang-up keeps. */
module PipeQueue {
  import opened Basics

  datatype Item<B> = Item(bytes: seq<B>, packet: bool)

  datatype Queue<B> = Queue(items: seq<Item<B>>, hup: bool, pollin: bool, pollout: bool)

  /** A byte count, or one of EAGAIN, EPIPE and ESPIPE. */
  datatype Reply = Count(n: nat) | Again | Broken | NoSeek

  /** All bytes in the queue, oldest first. */
  function Flat<B>(items: seq<Item<B>>): seq<B> {
    if items == [] then [] else Flat(items[..|items| - 1]) + items[|items| - 1].bytes
  }

  function Room<B>(size: nat, items: seq<Item<B>>): nat {
    if |Flat(items)| <= size then size - |Flat(items)| else 0
  }

  predicate Extends<B>(items: seq<Item<B>>) { items != [] && !items[|items| - 1].packet }

  function Appended<B>(items: seq<Item<B>>, data: seq<B>, direct: bool): seq<Item<B>> {
    if Extends(items) then items[..|items| - 1] + [Item(items[|items| - 1].bytes + data, false)]
    else items + [Item(data, direct)]
  }

  /** A write takes what fits. Without a stream message to extend it needs one of the `count` messages. */
  function Write<B>(size: nat, count: nat, a: Queue<B>, data: seq<B>, off: nat, direct: bool): (Queue<B>, Reply) {
    var n := Min(Room(size, a.items), |data|);
    if off != 0 then (a, NoSeek)
    else if a.hup then (a, Broken)
    else if data == [] then (a, Count(0))
    else if n == 0 || (!Extends(a.items) && |a.items| >= count) then (a.(pollout := false), Again)
    else
      (Queue(Appended(a.items, data[..n], direct), a.hup, a.pollin || a.items == [],
          a.pollout && n != Room(size, a.items)),
       Count(n))
  }

  /** How many bytes of the first message leave the queue: a packet leaves as a whole. */
  function Leaving<B>(it: Item<B>, want: nat): nat {
    if it.packet then |it.bytes| else Min(|it.bytes|, want)
  }

  function Shortened<B>(items: seq<Item<B>>, n: nat): seq<Item<B>>
    requires items != [] && n <= |items[0].bytes|
  {
    if n == |items[0].bytes| then items[1..] else [Item(items[0].bytes[n..], items[0].packet)] + items[1..]
  }

  /** A read delivers the first bytes of the first message, as many as wanted and there. */
  function Read<B>(a: Queue<B>, want: nat, off: nat): (Queue<B>, Reply, seq<B>) {
    if off != 0 then (a, NoSeek, [])
    else if want == 0 then (a, Count(0), [])
    else if a.items == [] then (a.(pollin := false), if a.hup then Count(0) else Again, [])
    else
      var (bytes, rest) := (a.items[0].bytes, Shortened(a.items, Leaving(a.items[0], want)));
      var n := Min(|bytes|, want);
      (Queue(rest, a.hup, a.pollin && rest != [], true), Count(n), bytes[..n])
  }

  /** The other end is closed. */
  function HangUp<B>(a: Queue<B>): Queue<B> { a.(hup := true, pollin := true) }

  datatype Op<B> = DoWrite(data: seq<B>, off: nat, direct: bool) | DoRead(want: nat, off: nat) | DoHangUp

  function Step<B>(size: nat, count: nat, a: Queue<B>, op: Op<B>): Queue<B> {
    match op
    case DoWrite(data, off, direct) => Write(size, count, a, data, off, direct).0
    case DoRead(want, off) => Read(a, want, off).0
    case DoHangUp => HangUp(a)
  }

  // ----- runs: what was accepted, what was delivered, what left the queue -----

  ghost function Exec<B>(size: nat, count: nat, a: Queue<B>, ops: seq<Op<B>>): Queue<B> {
    if ops == [] then a else Step(size, count, Exec(size, count, a, ops[..|ops| - 1]), ops[|ops| - 1])
  }

  function Accepted<B>(size: nat, count: nat, a: Queue<B>, op: Op<B>): seq<B> {
    if !op.DoWrite? then []
    else
      var r := Write(size, count, a, op.data, op.off, op.direct).1;
      if r.Count? && r.n <= |op.data| then op.data[..r.n] else []
  }

  function Delivered<B>(a: Queue<B>, op: Op<B>): seq<B> {
    if op.DoRead? then Read(a, op.want, op.off).2 else []
  }

  /** The bytes that leave the queue: those delivered and, from a packet read short, those dropped. */
  function Consumed<B>(a: Queue<B>, op: Op<B>): seq<B> {
    if op.DoRead? && op.off == 0 && op.want > 0 && a.items != [] then a.items[0].bytes[..Leaving(a.items[0], op.want)]
        else []
  }

  ghost function AllAccepted<B>(size: nat, count: nat, a: Queue<B>, ops: seq<Op<B>>): seq<B> {
    if ops == [] then []
    else
      var before := ops[..|ops| - 1];
      AllAccepted(size, count, a, before) + Accepted(size, count, Exec(size, count, a, before), ops[|ops| - 1])
  }

  ghost function AllDelivered<B>(size: nat, count: nat, a: Queue<B>, ops: seq<Op<B>>): seq<B> {
    if ops == [] then []
    else
      var before := ops[..|ops| - 1];
      AllDelivered(size, count, a, before) + Delivered(Exec(size, count, a, before), ops[|ops| - 1])
  }

  ghost function AllConsumed<B>(size: nat, count: nat, a: Queue<B>, ops: seq<Op<B>>): seq<B> {
    if ops == [] then []
    else
      var before := ops[..|ops| - 1];
      AllConsumed(size, count, a, before) + Consumed(Exec(size, count, a, before), ops[|ops| - 1])
  }

  // ----- the queue as one string of bytes -----

  lemma FlatAppend<B>(items: seq<Item<B>>, it: Item<B>)
    ensures Flat(items + [it]) == Flat(items) + it.bytes
  {
    assert (items + [it])[..|items|] == items;
  }

  lemma {:induction false} FlatFirst<B>(items: seq<Item<B>>)
    requires items != []
    ensures Flat(items) == items[0].bytes + Flat(items[1..])
  {
    if |items| > 1 {
      var n := |items| - 1;
      FlatFirst(items[..n]);
      assert items[..n][1..] == items[1..][..n - 1];
      assert Flat(items) == items[0].bytes + (Flat(items[1..][..n - 1]) + items[n].bytes);
    } else {
      assert items[..0] == [] && items[1..] == [];
    }
  }

  lemma FlatAppended<B>(items: seq<Item<B>>, data: seq<B>, direct: bool)
    ensures Flat(Appended(items, data, direct)) == Flat(items) + data
  {
    if Extends(items) {
      var n := |items| - 1;
      FlatAppend(items[..n], Item(items[n].bytes + data, false));
      assert Flat(items[..n]) + (items[n].bytes + data) == Flat(items) + data;
    } else {
      FlatAppend(items, Item(data, direct));
    }
  }

  lemma FlatShortened<B>(items: seq<Item<B>>, n: nat)
    requires items != [] && n <= |items[0].bytes|
    ensures Flat(items) == items[0].bytes[..n] + Flat(Shortened(items, n))
  {
    hide Flat;
    FlatFirst(items);
    if n < |items[0].bytes| {
      var rest := Shortened(items, n);
      FlatFirst(rest);
      assert rest[1..] == items[1..];
      assert items[0].bytes[..n] + (items[0].bytes[n..] + Flat(items[1..])) == items[0].bytes + Flat(items[1..]);
    } else {
      assert items[0].bytes[..n] == items[0].bytes;
    }
  }

  // ----- what every run keeps -----

  /** No byte is made up, lost or put out of order by a step. */
  lemma StepConserves<B>(size: nat, count: nat, a: Queue<B>, op: Op<B>)
    ensures Flat(a.items) + Accepted(size, count, a, op) == Consumed(a, op) + Flat(Step(size, count, a, op).items)
  {
    hide Flat;
    match op
    case DoWrite(data, off, direct) =>
      var n := Min(Room(size, a.items), |data|);
      FlatAppended(a.items, data[..n], direct);
      hide Appended, Extends;
    case DoRead(want, off) =>
      if off == 0 && want > 0 && a.items != [] { FlatShortened(a.items, Leaving(a.items[0], want)); }
      hide Shortened;
    case DoHangUp =>
  }

  lemma {:induction false} RunConserves<B>(size: nat, count: nat, a: Queue<B>, ops: seq<Op<B>>)
    ensures Flat(a.items) + AllAccepted(size, count, a, ops)
            == AllConsumed(size, count, a, ops) + Flat(Exec(size, count, a, ops).items)
  {
    hide Flat, Accepted, Consumed, Step;
    if ops != [] {
      var (before, op) := (ops[..|ops| - 1], ops[|ops| - 1]);
      var b := Exec(size, count, a, before);
      RunConserves(size, count, a, before);
      StepConserves(size, count, b, op);
      calc {
        Flat(a.items) + (AllAccepted(size, count, a, before) + Accepted(size, count, b, op));
        (Flat(a.items) + AllAccepted(size, count, a, before)) + Accepted(size, count, b, op);
        AllConsumed(size, count, a, before) + (Flat(b.items) + Accepted(size, count, b, op));
        AllConsumed(size, count, a, before) + (Consumed(b, op) + Flat(Step(size, count, b, op).items));
      }
    }
  }

  function Empty<B>(): Queue<B> { Queue([], false, false, true) }

  ghost predicate StreamOnly<B>(ops: seq<Op<B>>) {
    forall i :: 0 <= i < |ops| && ops[i].DoWrite? ==> !ops[i].direct
  }

  ghost predicate NoPackets<B>(items: seq<Item<B>>) { forall k :: 0 <= k < |items| ==> !items[k].packet }

  /** A read drops bytes only when it reads a packet short. */
  lemma DropsOnlyFromPackets<B>(a: Queue<B>, op: Op<B>)
    ensures Delivered(a, op) <= Consumed(a, op)
    ensures Delivered(a, op) < Consumed(a, op) ==>
            a.items != [] && a.items[0].packet && op.DoRead? && op.want < |a.items[0].bytes|
  {}

  lemma StepStream<B>(size: nat, count: nat, a: Queue<B>, op: Op<B>)
    requires NoPackets(a.items) && (op.DoWrite? ==> !op.direct)
    ensures NoPackets(Step(size, count, a, op).items)
  {}

  lemma {:induction false} RunStream<B>(size: nat, count: nat, ops: seq<Op<B>>)
    requires StreamOnly(ops)
    ensures NoPackets(Exec(size, count, Empty(), ops).items)
    ensures AllDelivered(size, count, Empty(), ops) == AllConsumed(size, count, Empty(), ops)
  {
    hide Step, Delivered, Consumed;
    if ops != [] {
      var (before, op) := (ops[..|ops| - 1], ops[|ops| - 1]);
      RunStream(size, count, before);
      StepStream(size, count, Exec(size, count, Empty(), before), op);
      DropsOnlyFromPackets(Exec(size, count, Empty(), before), op);
    }
  }

  /** In a run of stream writes the bytes read, followed by those still queued, are the bytes written. */
  lemma ReadIsPrefixOfWritten<B>(size: nat, count: nat, ops: seq<Op<B>>)
    requires StreamOnly(ops)
    ensures AllDelivered(size, count, Empty(), ops) + Flat(Exec(size, count, Empty(), ops).items)
            == AllAccepted(size, count, Empty(), ops)
    ensures AllDelivered(size, count, Empty(), ops) <= AllAccepted(size, count, Empty(), ops)
  {
    RunStream(size, count, ops);
    RunConserves(size, count, Empty(), ops);
    hide AllDelivered, AllConsumed, AllAccepted, Exec;
  }

  // ----- readiness -----

  /** Messages hold at least a byte, together no more than the ring; only the last may be a stream message. */
  ghost predicate Formed<B>(size: nat, a: Queue<B>) {
    && |Flat(a.items)| <= size
    && (forall k :: 0 <= k < |a.items| ==> |a.items[k].bytes| > 0)
    && (forall k :: 0 <= k < |a.items| - 1 ==> a.items[k].packet)
  }

  /** Before a hang-up: readable exactly when a message is queued; a full ring is never called writable,
      and a ring that is not called writable is full or has no message left. */
  ghost predicate Ready<B>(size: nat, count: nat, a: Queue<B>) {
    !a.hup ==>
      && (a.pollin <==> a.items != [])
      && (|Flat(a.items)| == size ==> !a.pollout)
      && (!a.pollout ==> |Flat(a.items)| == size || |a.items| >= count)
  }

  lemma WriteFormed<B>(size: nat, count: nat, a: Queue<B>, data: seq<B>, off: nat, direct: bool)
    requires Formed(size, a)
    ensures var b := Write(size, count, a, data, off, direct).0;
            Formed(size, b) && (Ready(size, count, a) && size > 0 ==> Ready(size, count, b))
  {
    hide Flat;
    FlatAppended(a.items, data[..Min(Room(size, a.items), |data|)], direct);
  }

  lemma ReadFormed<B>(size: nat, count: nat, a: Queue<B>, want: nat, off: nat)
    requires Formed(size, a)
    ensures var b := Read(a, want, off).0; Formed(size, b) && (Ready(size, count, a) ==> Ready(size, count, b))
  {
    hide Flat;
    if a.items != [] && want > 0 { FlatShortened(a.items, Leaving(a.items[0], want)); }
  }

  lemma {:induction false} RunFormed<B>(size: nat, count: nat, ops: seq<Op<B>>)
    requires size > 0
    ensures var a := Exec(size, count, Empty(), ops); Formed(size, a) && Ready(size, count, a)
  {
    if ops != [] {
      var (before, op) := (ops[..|ops| - 1], ops[|ops| - 1]);
      var a := Exec(size, count, Empty<B>(), before);
      RunFormed(size, count, before);
      hide Formed, Ready, Write, Read;
      match op
      case DoWrite(data, off, direct) => WriteFormed(size, count, a, data, off, direct);
      case DoRead(want, off) => ReadFormed(size, count, a, want, off);
      case DoHangUp =>
          assert Formed(size, HangUp(a)) && Ready(size, count, HangUp(a)) by { HangUpFormed(size, count, a); }
    }
  }

  lemma HangUpFormed<B>(size: nat, count: nat, a: Queue<B>)
    requires Formed(size, a)
    ensures Formed(size, HangUp(a)) && Ready(size, count, HangUp(a))
  {}

  /** The pipe is called writable exactly when it is not full, in every run of stream writes before a hang-up. */
  ghost predicate Exact<B>(size: nat, a: Queue<B>) {
    !a.hup ==> (a.pollin <==> a.items != []) && (a.pollout <==> |Flat(a.items)| < size)
  }

  lemma StepExact<B>(size: nat, count: nat, a: Queue<B>, op: Op<B>)
    requires size > 0 && count > 0 && Formed(size, a) && NoPackets(a.items) && Exact(size, a)
             && (op.DoWrite? ==> !op.direct)
    ensures Exact(size, Step(size, count, a, op))
  {
    hide Flat;
    match op
    case DoWrite(data, off, direct) =>
      FlatAppended(a.items, data[..Min(Room(size, a.items), |data|)], direct);
    case DoRead(want, off) =>
      if a.items != [] && want > 0 { FlatShortened(a.items, Leaving(a.items[0], want)); }
    case DoHangUp =>
  }

  lemma {:induction false} PollExact<B>(size: nat, count: nat, ops: seq<Op<B>>)
    requires size > 0 && count > 0 && StreamOnly(ops)
    ensures Exact(size, Exec(size, count, Empty(), ops))
  {
    if ops != [] {
      var (before, op) := (ops[..|ops| - 1], ops[|ops| - 1]);
      hide Exact, Formed, Ready, Step, NoPackets;
      PollExact(size, count, before);
      RunFormed(size, count, before);
      RunStream(size, count, before);
      StepExact(size, count, Exec(size, count, Empty(), before), op);
    }
  }

  /** With packets this can fail: a write spoils it exactly when bytes would fit but no message is left. */
  lemma WriteSpoils<B>(size: nat, count: nat, a: Queue<B>, data: seq<B>, off: nat, direct: bool)
    requires Formed(size, a) && Exact(size, a) && !a.hup
    ensures Exact(size, Write(size, count, a, data, off, direct).0) <==>
            off != 0 || data == [] || |Flat(a.items)| == size || Extends(a.items) || |a.items| < count
  {
    hide Flat;
    FlatAppended(a.items, data[..Min(Room(size, a.items), |data|)], direct);
  }

  /** The write of a run that makes a pipe look full that is not: bytes would fit but no message is left. */
  predicate Spoiling<B>(size: nat, count: nat, a: Queue<B>, op: Op<B>) {
    op.DoWrite? && op.off == 0 && op.data != [] && !a.hup && |Flat(a.items)| < size && !Extends(a.items)
        && |a.items| >= count
  }

  /** Such a write is among the operations, and no read since has taken a message or a part of one. */
  ghost predicate Spoiled<B>(size: nat, count: nat, ops: seq<Op<B>>) {
    ops != [] &&
    var (before, op) := (ops[..|ops| - 1], ops[|ops| - 1]);
    var a := Exec(size, count, Empty(), before);
    || Spoiling(size, count, a, op)
    || (Spoiled(size, count, before) && !(op.DoRead? && op.off == 0 && op.want > 0 && a.items != []))
  }

  ghost predicate Stuck<B>(size: nat, count: nat, a: Queue<B>) {
    !a.pollout && |Flat(a.items)| < size && !Extends(a.items) && |a.items| >= count
  }

  /** A read that takes something makes readiness exact, whatever it was before; nothing else changes it
      while no message is left. */
  lemma StepSpoiled<B>(size: nat, count: nat, a: Queue<B>, op: Op<B>)
    requires size > 0 && Formed(size, a) && Ready(size, count, a)
             && (!a.hup ==> Stuck(size, count, a) || Exact(size, a))
    ensures var b := Step(size, count, a, op);
            !b.hup ==>
              && !a.hup
              && (Spoiling(size, count, a, op) ==> Stuck(size, count, b))
              && (op.DoRead? && op.off == 0 && op.want > 0 && a.items != [] ==> Exact(size, b))
              && (!Spoiling(size, count, a, op) && Exact(size, a) ==> Exact(size, b))
              && (Stuck(size, count, a) && !(op.DoRead? && op.off == 0 && op.want > 0 && a.items != []) ==>
                   Stuck(size, count, b))
  {
    hide Flat;
    match op
    case DoWrite(data, off, direct) =>
      FlatAppended(a.items, data[..Min(Room(size, a.items), |data|)], direct);
    case DoRead(want, off) =>
      if a.items != [] && want > 0 { FlatShortened(a.items, Leaving(a.items[0], want)); }
    case DoHangUp =>
  }

  /** In every run, packets or not, readiness before a hang-up is exact if and only if the run is not spoiled. */
  lemma {:induction false} RunExact<B>(size: nat, count: nat, ops: seq<Op<B>>)
    requires size > 0
    ensures var a := Exec(size, count, Empty(), ops);
            !a.hup ==> && (Exact(size, a) <==> !Spoiled(size, count, ops))
                       && (Spoiled(size, count, ops) ==> Stuck(size, count, a))
  {
    if ops != [] {
      var (before, op) := (ops[..|ops| - 1], ops[|ops| - 1]);
      var a := Exec(size, count, Empty<B>(), before);
      RunExact(size, count, before);
      RunFormed(size, count, before);
      StepSpoiled(size, count, a, op);
      hide Formed, Ready, Step, Spoiling, Flat;
    }
  }

  /** A ring of two bytes with one message, after two packets of one byte: half empty, not writable. */
  lemma SpoiledPipe(x: int)
    ensures var a := Queue([Item([x], true)], false, true, true);
            && Write(2, 1, Empty(), [x], 0, true) == (a, Count(1))
            && Formed(2, a) && Exact(2, a) && !Exact(2, Write(2, 1, a, [x], 0, true).0)
  {
    var (none, one) := ([], [Item([x], true)]);
    assert Flat<int>(none) == [] && [x][..1] == [x] && Appended(none, [x], true) == one;
    assert one[..0] == [] && Flat(one) == [x];
    hide Flat, Appended;
  }

  /** `n` packets of one byte. */
  function Ones<B>(n: nat, x: B): seq<Item<B>> { seq(n, _ => Item([x], true)) }

  function OneByteWrites<B>(n: nat, x: B): seq<Op<B>> { seq(n, _ => DoWrite([x], 0, true)) }

  lemma {:induction false} OnesFlat<B>(n: nat, x: B)
    ensures |Flat(Ones(n, x))| == n
  {
    if n > 0 {
      assert Ones(n, x)[..n - 1] == Ones(n - 1, x);
      OnesFlat(n - 1, x);
    }
  }

  lemma OneMore<B>(size: nat, count: nat, n: nat, x: B)
    requires n < count < size
    ensures var a := Queue(Ones(n, x), false, n > 0, true);
            Write(size, count, a, [x], 0, true).0 == Queue(Ones(n + 1, x), false, true, true)
  {
    OnesFlat(n, x);
    assert [x][..1] == [x] && Ones(n + 1, x) == Ones(n, x) + [Item([x], true)];
    assert Ones(n, x) == [] <==> n == 0;
    hide Flat;
  }

  lemma {:induction false} Filled<B>(size: nat, count: nat, n: nat, x: B)
    requires n <= count < size
    ensures Exec(size, count, Empty(), OneByteWrites(n, x)) == Queue(Ones(n, x), false, n > 0, true)
  {
    if n > 0 {
      var ops := OneByteWrites(n, x);
      assert ops[..n - 1] == OneByteWrites(n - 1, x) && ops[n - 1] == DoWrite([x], 0, true);
      Filled(size, count, n - 1, x);
      OneMore(size, count, n - 1, x);
      hide Write, Ones;
    }
  }

  /** So in every pipe with fewer messages than bytes: one packet of one byte more than there are messages
      leaves it not writable with room for more bytes. */
  lemma SpoiledAlways<B>(size: nat, count: nat, x: B)
    requires 0 < count < size
    ensures var (ops, a) := (OneByteWrites(count + 1, x), Exec(size, count, Empty(), OneByteWrites(count + 1, x)));
            Spoiled(size, count, ops) && !a.hup && !a.pollout && |Flat(a.items)| == count < size && !Exact(size, a)
  {
    hide Flat, Ones, Write, Spoiling, OneByteWrites;
    var ops := OneByteWrites(count + 1, x);
    var a := Queue(Ones(count, x), false, count > 0, true);
    assert |ops| == count + 1 && ops[..count] == OneByteWrites(count, x) && ops[count] == DoWrite([x], 0, true) by {
      WritesNext(count, x);
    }
    Filled(size, count, count, x);
    OneTooMany(size, count, x);
  }

  lemma WritesNext<B>(n: nat, x: B)
    ensures var ops := OneByteWrites(n + 1, x);
            |ops| == n + 1 && ops[..n] == OneByteWrites(n, x) && ops[n] == DoWrite([x], 0, true)
  {}

  lemma OneTooMany<B>(size: nat, count: nat, x: B)
    requires 0 < count < size
    ensures var (a, op) := (Queue(Ones(count, x), false, true, true), DoWrite([x], 0, true));
            && Spoiling(size, count, a, op) && Write(size, count, a, [x], 0, true).0 == a.(pollout := false)
            && |Flat(a.items)| == count
  {
    OnesFlat(count, x);
    hide Flat;
  }
}
