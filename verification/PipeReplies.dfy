/** What the replies of a pipe mean, over whole runs: told by what was queued, what was wanted and whether
    the other end has been closed. */
module PipeReplies {
  import opened Basics
  import opened PipeQueue

  /** The other end has been closed. */
  ghost predicate HungUp<B>(ops: seq<Op<B>>) { DoHangUp in ops }

  lemma HungUpNext<B>(ops: seq<Op<B>>)
    requires ops != []
    ensures HungUp(ops) <==> HungUp(ops[..|ops| - 1]) || ops[|ops| - 1].DoHangUp?
  {
    assert ops == ops[..|ops| - 1] + [ops[|ops| - 1]];
  }

  /** The end is known to be closed exactly after a hang-up, and there are never more messages than there
      is room for. */
  lemma {:induction false} RunHup<B>(size: nat, count: nat, ops: seq<Op<B>>)
    ensures var a := Exec(size, count, Empty(), ops); (a.hup <==> HungUp(ops)) && |a.items| <= count
  {
    hide Flat, HungUp;
    if ops == [] {
      NeverHungUp<B>();
    } else {
      RunHup(size, count, ops[..|ops| - 1]);
      HungUpNext(ops);
    }
  }

  lemma NeverHungUp<B>()
    ensures !HungUp<B>([])
  {}

  /** What is queued is what was accepted and has not left. */
  lemma QueuedBytes<B>(size: nat, count: nat, ops: seq<Op<B>>)
    requires size > 0
    ensures var a := Exec(size, count, Empty(), ops);
            && AllAccepted(size, count, Empty(), ops) == AllConsumed(size, count, Empty(), ops) + Flat(a.items)
            && (a.items == [] <==> AllAccepted(size, count, Empty(), ops) == AllConsumed(size, count, Empty(), ops))
  {
    hide Exec, AllAccepted, AllConsumed, Flat;
    var a := Exec(size, count, Empty<B>(), ops);
    RunConserves(size, count, Empty<B>(), ops);
    RunFormed<B>(size, count, ops);
    assert Flat<B>([]) == [] by { EmptyFlat<B>(); }
    if a.items != [] { FlatFirst(a.items); }
  }

  lemma EmptyFlat<B>()
    ensures Flat<B>([]) == []
  {}

  /** In every run a read that wants bytes is told to try again exactly when all accepted bytes have left
      and the other end is open, is told the end exactly when they have left and it is closed, and gets
      else the first bytes of the first message, as many as it wants or all there are. */
  lemma ReadReplies<B>(size: nat, count: nat, ops: seq<Op<B>>, want: nat, off: nat)
    requires size > 0
    ensures var a := Exec(size, count, Empty(), ops);
            var none := AllAccepted(size, count, Empty(), ops) == AllConsumed(size, count, Empty(), ops);
            var r := Read(a, want, off);
            && (r.1 == NoSeek <==> off != 0) && r.1 != Broken
            && (r.1 == Again <==> off == 0 && want > 0 && none && !HungUp(ops))
            && (r.1 == Count(0) <==> off == 0 && (want == 0 || (none && HungUp(ops))))
            && (off == 0 && want > 0 && !none ==>
                  && a.items != [] && r.1 == Count(|r.2|) && 0 < |r.2| <= want
                  && r.2 <= a.items[0].bytes && (|r.2| == want || r.2 == a.items[0].bytes))
            && (!(off == 0 && want > 0 && !none) ==> r.2 == [] && r.0.items == a.items)
  {
    hide Exec, AllAccepted, AllConsumed, Flat, HungUp;
    RunHup(size, count, ops);
    QueuedBytes(size, count, ops);
    RunFormed<B>(size, count, ops);
    var a := Exec(size, count, Empty<B>(), ops);
    if a.items != [] { assert |a.items[0].bytes| > 0; }
  }

  /** In every run a write fails for good exactly after a hang-up, is told to try again exactly when it
      brings bytes and none fits or there is no message for them, and else takes as many as fit. */
  lemma WriteReplies<B>(size: nat, count: nat, ops: seq<Op<B>>, data: seq<B>, off: nat, direct: bool)
    requires size > 0
    ensures var a := Exec(size, count, Empty(), ops);
            var queued := |AllAccepted(size, count, Empty(), ops)| - |AllConsumed(size, count, Empty(), ops)|;
            var full := queued == size || ((a.items == [] || a.items[|a.items| - 1].packet) && |a.items| == count);
            var r := Write(size, count, a, data, off, direct);
            && (r.1 == NoSeek <==> off != 0)
            && (r.1 == Broken <==> off == 0 && HungUp(ops))
            && (r.1 == Again <==> off == 0 && !HungUp(ops) && data != [] && full)
            && (r.1 == Count(0) <==> off == 0 && !HungUp(ops) && data == [])
            && (off == 0 && !HungUp(ops) && data != [] && !full ==>
                  && r.1.Count? && 0 < r.1.n <= |data| && queued + r.1.n <= size
                  && (r.1.n == |data| || queued + r.1.n == size))
            && (!(r.1.Count? && r.1.n > 0) ==> r.0.items == a.items)
  {
    hide Exec, AllAccepted, AllConsumed, Flat, HungUp;
    RunHup(size, count, ops);
    QueuedBytes(size, count, ops);
    RunFormed<B>(size, count, ops);
  }

  /** A write leaves the messages before it alone, except that it adds to a stream message at the end. */
  lemma WriteMessages<B>(size: nat, count: nat, a: Queue<B>, data: seq<B>, direct: bool)
    ensures var (b, r) := Write(size, count, a, data, 0, direct);
            r.Count? && r.n > 0 ==>
              && r.n <= |data| && b.items != []
              && var (k, last) := (|b.items| - 1, b.items[|b.items| - 1]);
                 || (&& k == |a.items| && b.items[..k] == a.items && last == Item(data[..r.n], direct)
                     && (k > 0 ==> a.items[k - 1].packet))
                 || (&& k == |a.items| - 1 && b.items[..k] == a.items[..k] && !a.items[k].packet
                     && last == Item(a.items[k].bytes + data[..r.n], false))
  {
    hide Flat;
  }

  // ----- packets keep their bounds -----

  ghost predicate PacketsOnly<B>(ops: seq<Op<B>>) { forall i :: 0 <= i < |ops| && ops[i].DoWrite? ==> ops[i].direct }

  /** What each write that took bytes took. */
  ghost function Chunks<B>(size: nat, count: nat, ops: seq<Op<B>>): seq<seq<B>> {
    if ops == [] then []
    else
      var before := ops[..|ops| - 1];
      var c := Accepted(size, count, Exec(size, count, Empty(), before), ops[|ops| - 1]);
      Chunks(size, count, before) + if c == [] then [] else [c]
  }

  /** What each read that got bytes got, and how many it wanted. */
  ghost function Gets<B>(size: nat, count: nat, ops: seq<Op<B>>): seq<(seq<B>, nat)> {
    if ops == [] then []
    else
      var (before, op) := (ops[..|ops| - 1], ops[|ops| - 1]);
      var d := Delivered(Exec(size, count, Empty(), before), op);
      Gets(size, count, before) + if d == [] || !op.DoRead? then [] else [(d, op.want)]
  }

  function AsPackets<B>(cs: seq<seq<B>>): seq<Item<B>> { seq(|cs|, i requires 0 <= i < |cs| => Item(cs[i], true)) }

  ghost predicate OneEach<B>(cs: seq<seq<B>>, gs: seq<(seq<B>, nat)>) {
    && |gs| <= |cs|
    && forall i :: 0 <= i < |gs| ==> gs[i].0 == cs[i][..Min(|cs[i]|, gs[i].1)]
  }

  /** In a run of packet writes every read that gets bytes gets the start of one packet, the packets in
      the order written and each once; the others are still queued as they were written. */
  lemma {:induction false} PacketBounds<B>(size: nat, count: nat, ops: seq<Op<B>>)
    requires size > 0 && PacketsOnly(ops)
    ensures var (cs, gs) := (Chunks(size, count, ops), Gets(size, count, ops));
            OneEach(cs, gs) && Exec(size, count, Empty(), ops).items == AsPackets(cs[|gs|..])
  {
    if ops != [] {
      var (before, op) := (ops[..|ops| - 1], ops[|ops| - 1]);
      var a := Exec(size, count, Empty<B>(), before);
      PacketBounds(size, count, before);
      RunFormed<B>(size, count, before);
      hide Chunks, Gets, Exec, Flat, Ready;
      var (cs, gs) := (Chunks(size, count, before), Gets(size, count, before));
      PacketStep(size, count, a, op, cs, gs);
      ChunksNext(size, count, ops);
      GetsNext(size, count, ops);
      assert Exec(size, count, Empty<B>(), ops) == Step(size, count, a, op) by { ExecNext(size, count, ops); }
    }
  }

  lemma ExecNext<B>(size: nat, count: nat, ops: seq<Op<B>>)
    requires ops != []
    ensures Exec(size, count, Empty(), ops)
            == Step(size, count, Exec(size, count, Empty(), ops[..|ops| - 1]), ops[|ops| - 1])
  {}

  lemma ChunksNext<B>(size: nat, count: nat, ops: seq<Op<B>>)
    requires ops != []
    ensures var (before, op) := (ops[..|ops| - 1], ops[|ops| - 1]);
            var c := Accepted(size, count, Exec(size, count, Empty(), before), op);
            Chunks(size, count, ops) == Chunks(size, count, before) + if c == [] then [] else [c]
  {}

  lemma GetsNext<B>(size: nat, count: nat, ops: seq<Op<B>>)
    requires ops != []
    ensures var (before, op) := (ops[..|ops| - 1], ops[|ops| - 1]);
            var d := Delivered(Exec(size, count, Empty(), before), op);
            Gets(size, count, ops) == Gets(size, count, before) + if d == [] || !op.DoRead? then [] else [(d, op.want)]
  {}

  lemma PacketStep<B>(size: nat, count: nat, a: Queue<B>, op: Op<B>, cs: seq<seq<B>>, gs: seq<(seq<B>, nat)>)
    requires Formed(size, a) && OneEach(cs, gs) && a.items == AsPackets(cs[|gs|..]) && (op.DoWrite? ==> op.direct)
    ensures var (c, d) := (Accepted(size, count, a, op), Delivered(a, op));
            var cs' := cs + if c == [] then [] else [c];
            var gs' := gs + if d == [] || !op.DoRead? then [] else [(d, op.want)];
            OneEach(cs', gs') && Step(size, count, a, op).items == AsPackets(cs'[|gs'|..])
  {
    hide Flat, Formed;
    match op
    case DoWrite(data, off, direct) =>
      var (c, b) := (Accepted(size, count, a, op), Step(size, count, a, op));
      WritePacket(size, count, a, data, off);
      var cs' := cs + if c == [] then [] else [c];
      assert cs'[|gs|..] == cs[|gs|..] + cs'[|cs|..];
      assert b.items == AsPackets(cs'[|gs|..]);
    case DoRead(want, off) =>
      ReadPacket(size, a, want, off);
      var d := Delivered(a, op);
      if d != [] {
        assert a.items[0] == Item(cs[|gs|], true);
        assert cs[|gs|..][1..] == cs[|gs| + 1..];
      }
    case DoHangUp =>
  }

  lemma WritePacket<B>(size: nat, count: nat, a: Queue<B>, data: seq<B>, off: nat)
    requires forall k :: 0 <= k < |a.items| ==> a.items[k].packet
    ensures var c := Accepted(size, count, a, DoWrite(data, off, true));
            Write(size, count, a, data, off, true).0.items == a.items + if c == [] then [] else [Item(c, true)]
  {
    hide Flat;
  }

  lemma ReadPacket<B>(size: nat, a: Queue<B>, want: nat, off: nat)
    requires Formed(size, a) && (forall k :: 0 <= k < |a.items| ==> a.items[k].packet)
    ensures var (b, _, d) := Read(a, want, off);
            if d == [] then b.items == a.items
            else a.items != [] && d == a.items[0].bytes[..Min(|a.items[0].bytes|, want)] && b.items == a.items[1..]
  {
    hide Flat;
    if a.items != [] { assert |a.items[0].bytes| > 0; }
  }

  // ----- readability after a hang-up -----

  predicate Reads<B>(op: Op<B>) { op.DoRead? && op.off == 0 && op.want > 0 }

  /** Since the last hang-up a read has left the queue empty, or found it so. */
  ghost predicate RunDry<B>(size: nat, count: nat, ops: seq<Op<B>>) {
    ops != [] &&
    var (before, op) := (ops[..|ops| - 1], ops[|ops| - 1]);
    || (Reads(op) && Exec(size, count, Empty(), ops).items == [])
    || (!op.DoHangUp? && RunDry(size, count, before))
  }

  /** After a hang-up the pipe is called readable if and only if no read since has run it dry. */
  lemma {:induction false} HangUpReadable<B>(size: nat, count: nat, ops: seq<Op<B>>)
    ensures var a := Exec(size, count, Empty(), ops); HungUp(ops) ==> (a.pollin <==> !RunDry(size, count, ops))
  {
    if ops != [] {
      HangUpReadable(size, count, ops[..|ops| - 1]);
      RunHup(size, count, ops[..|ops| - 1]);
      HungUpNext(ops);
      hide Flat, HungUp;
    } else {
      NeverHungUp<B>();
    }
  }
}
