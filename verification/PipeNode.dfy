/** The pipe: messages over one ring of bytes, each operation run to its end. Reads and writes are
    shown to be those of the plain queue in `PipeQueue`, and what they leave behind to be a queue
    that concurrent readers may start from. */
module PipeNode {
  import opened Basics
  import opened Ring
  import PQ = PipeQueue
  import PR = PipeReaders

  type Opt = PR.Opt
  type Item<B> = PQ.Item<B>

  datatype Msg = Msg(next: Opt, start: nat, end: nat)

  /** The queued messages `q` and the free ones `idle` are all the messages. */
  ghost predicate Split(count: nat, q: seq<nat>, idle: seq<nat>) {
    && |q| + |idle| == count && PR.Distinct(q) && PR.Distinct(idle)
    && (forall k :: 0 <= k < |q| ==> q[k] < count && q[k] !in idle) && (forall k :: 0 <= k < |idle| ==> idle[k] < count)
  }

  /** Each message links to the next one; a stream message, which is the last, links to itself. */
  ghost predicate Chain(msgs: seq<Msg>, q: seq<nat>, stream: bool) {
    forall k {:trigger msgs[q[k]]} :: 0 <= k < |q| ==>
      q[k] < |msgs| && msgs[q[k]].next == if stream && k == |q| - 1 then Some(q[k]) else PR.AtOr(q, k + 1)
  }

  ghost predicate Linked(msgs: seq<Msg>, head: Opt, tail: Opt, free: Opt, q: seq<nat>, idle: seq<nat>, stream: bool) {
    && Split(|msgs|, q, idle) && Chain(msgs, q, stream) && Chain(msgs, idle, false)
    && head == PR.AtOr(q, 0) && tail == (if q == [] then None else Some(q[|q| - 1])) && free == PR.AtOr(idle, 0)
  }

  function Base(msgs: seq<Msg>, q: seq<nat>): nat { if q != [] && q[0] < |msgs| then msgs[q[0]].start else 0 }

  /** How many bytes are queued before message `k`. */
  ghost function Off<B>(items: seq<Item<B>>, k: nat): nat
    requires k <= |items|
  {
    |PQ.Flat(items[..k])|
  }

  /** Message `k` of the queue is where the bytes before it end, and ends with its own. */
  ghost predicate PlacedAt<B>(n: nat, a: nat, msgs: seq<Msg>, m: nat, items: seq<Item<B>>, k: nat)
    requires n > 0
  {
    && k < |items| && m < |msgs|
    && msgs[m].start == Idx(n, a + Off(items, k)) && msgs[m].end == Idx(n, a + Off(items, k + 1))
  }

  ghost predicate Placed<B>(n: nat, a: nat, msgs: seq<Msg>, q: seq<nat>, items: seq<Item<B>>)
    requires n > 0
  {
    |items| == |q| && forall k :: 0 <= k < |q| ==> PlacedAt(n, a, msgs, q[k], items, k)
  }

  /** The bytes of the queue lie one after the other on the ring, message by message. */
  ghost predicate Laid<B>(buf: seq<B>, msgs: seq<Msg>, q: seq<nat>, items: seq<Item<B>>) {
    && |buf| > 0 && Base(msgs, q) < |buf|
    && PQ.Flat(items) == Read(buf, Base(msgs, q), |PQ.Flat(items)|)
    && Placed(|buf|, Base(msgs, q), msgs, q, items)
  }

  // ----- bytes on the ring -----

  /** The ring after `data` has been stored from position `at` on. */
  ghost function Stored<B>(buf: seq<B>, at: nat, data: seq<B>): (r: seq<B>)
    requires at < |buf|
    ensures |r| == |buf|
  {
    seq(|buf|, x requires 0 <= x < |buf| => if Space(|buf|, at, x) < |data| then data[Space(|buf|, at, x)] else buf[x])
  }

  lemma SpaceBetween(n: nat, a: nat, i: nat, j: nat)
    requires n > 0 && a < n && i <= n && j < n
    ensures Space(n, Idx(n, a + i), Idx(n, a + j)) == if i <= j then j - i else if i == n then j else n - i + j
  {
    IdxWrap(n, a + j);
    if a + i < 2 * n { IdxWrap(n, a + i); }
  }

  /** Bytes stored behind those already queued leave them as they are. */
  lemma StoredRead<B>(buf: seq<B>, a: nat, len: nat, data: seq<B>)
    requires a < |buf| && len + |data| <= |buf|
    ensures Read(Stored(buf, Idx(|buf|, a + len), data), a, len + |data|) == Read(buf, a, len) + data
  {
    var (n, at) := (|buf|, Idx(|buf|, a + len));
    var (r, w) := (Read(Stored(buf, at, data), a, len + |data|), Read(buf, a, len) + data);
    forall j | 0 <= j < len + |data| ensures r[j] == w[j] {
      SpaceBetween(n, a, len, j);
    }
  }

  lemma ReadInside<B>(buf: seq<B>, at: nat, n: nat)
    requires at < |buf| && at + n <= |buf|
    ensures Read(buf, at, n) == buf[at..at + n]
  {
    forall k | 0 <= k < n ensures Read(buf, at, n)[k] == buf[at..at + n][k] { IdxWrap(|buf|, at + k); }
  }

  /** The copy out of the ring, in one piece or in two around its end. */
  method CopyOut<B>(buf: array<B>, at: nat, n: nat) returns (out: seq<B>)
    requires at < buf.Length && n <= buf.Length
    ensures out == Read(buf[..], at, n)
  {
    hide Read, Idx;
    var first := Min(n, buf.Length - at);
    out := buf[at..at + first];
    ReadInside(buf[..], at, first);
    var rest := n - first;
    if rest != 0 {
      IdxWrap(buf.Length, at + first);
      var at2 := Idx(buf.Length, at + first);
      out := out + buf[at2..at2 + rest];
      ReadInside(buf[..], at2, rest);
      ReadSplit(buf[..], at, first, rest);
    }
  }

  /** The copy into the ring, in one piece or in two around its end. */
  method CopyIn<B>(buf: array<B>, at: nat, data: seq<B>)
    requires at < buf.Length && |data| <= buf.Length
    modifies buf
    ensures buf[..] == Stored(old(buf[..]), at, data)
  {
    var first := Min(|data|, buf.Length - at);
    forall k | 0 <= k < first { buf[at + k] := data[k]; }
    var rest := |data| - first;
    if rest != 0 {
      IdxWrap(buf.Length, at + first);
      var at2 := Idx(buf.Length, at + first);
      forall k | 0 <= k < rest { buf[at2 + k] := data[first + k]; }
    }
    ghost var was := old(buf[..]);
    forall x | 0 <= x < buf.Length ensures buf[x] == Stored(was, at, data)[x] {}
  }

  // ----- reading -----

  /** The first message starts at the base and is as long as its start and end say. */
  lemma FirstLength<B>(buf: seq<B>, msgs: seq<Msg>, q: seq<nat>, items: seq<Item<B>>)
    requires Laid(buf, msgs, q, items) && q != [] && 0 < |items[0].bytes| <= |buf|
    ensures q[0] < |msgs| && msgs[q[0]].start == Base(msgs, q) < |buf| && msgs[q[0]].end < |buf|
    ensures msgs[q[0]].end == Idx(|buf|, Base(msgs, q) + |items[0].bytes|)
    ensures Used(|buf|, msgs[q[0]].start, msgs[q[0]].end) == |items[0].bytes|
  {
    assert items[..0] == [] && items[..1] == [items[0]];
    FlatNone<B>();
    FlatOne(items[0]);
    assert PlacedAt(|buf|, Base(msgs, q), msgs, q[0], items, 0);
    SpaceBetween(|buf|, Base(msgs, q), 0, 0);
    IdxSpaceLen(|buf|, Base(msgs, q), |items[0].bytes|);
    hide Read;
  }

  lemma IdxSpaceLen(n: nat, a: nat, len: nat)
    requires n > 0 && a < n && 0 < len <= n
    ensures Used(n, a, Idx(n, a + len)) == len
  {
    if a + len < 2 * n { IdxWrap(n, a + len); }
  }

  /** Room on the ring is what lies between the last byte and the first. */
  lemma RoomBetween(n: nat, a: nat, len: nat)
    requires n > 0 && a < n && 0 < len <= n
    ensures Space(n, Idx(n, a + len), a) == n - len
  {
    if a + len < 2 * n { IdxWrap(n, a + len); }
  }

  lemma ReadPart<B>(buf: seq<B>, a: nat, len: nat, n: nat)
    requires |buf| > 0 && n <= len
    ensures Read(buf, a, len)[..n] == Read(buf, a, n)
    ensures Read(buf, a, len)[n..] == Read(buf, Idx(|buf|, a + n), len - n)
  {
    hide Read, Idx;
    ReadSplit(buf, a, n, len - n);
  }

  /** Offsets behind the first message, counted from its end. */
  lemma OffRest<B>(items: seq<Item<B>>, k: nat)
    requires k < |items|
    ensures Off(items, k + 1) == |items[0].bytes| + Off(items[1..], k)
  {
    PQ.FlatFirst(items[..k + 1]);
    assert items[..k + 1][1..] == items[1..][..k];
    hide PQ.Flat;
  }

  /** The messages behind the first one keep their places. */
  lemma PopLaid<B>(buf: seq<B>, msgs: seq<Msg>, msgs': seq<Msg>, q: seq<nat>, items: seq<Item<B>>)
    requires Laid(buf, msgs, q, items) && PR.Distinct(q) && q != [] && |msgs'| == |msgs|
    requires forall x :: 0 <= x < |msgs| && x != q[0] ==> msgs'[x] == msgs[x]
    ensures Laid(buf, msgs', q[1..], items[1..])
  {
    hide Read, Idx, PQ.Flat;
    var (a, len, rest) := (Base(msgs, q), |items[0].bytes|, items[1..]);
    PQ.FlatFirst(items);
    ReadPart(buf, a, |PQ.Flat(items)|, len);
    assert PQ.Flat(rest) == Read(buf, Idx(|buf|, a + len), |PQ.Flat(rest)|);
    if |q| > 1 {
      OffRest(items, 0);
      FlatNone<B>();
      assert rest[..0] == [];
      assert PlacedAt(|buf|, a, msgs, q[1], items, 1);
      assert Base(msgs', q[1..]) == Idx(|buf|, a + len);
      forall k | 0 <= k < |q[1..]| ensures PlacedAt(|buf|, Idx(|buf|, a + len), msgs', q[1..][k], rest, k) {
        assert PlacedAt(|buf|, a, msgs, q[k + 1], items, k + 1);
        OffRest(items, k);
        OffRest(items, k + 1);
        IdxTwice(|buf|, a + len, Off(rest, k));
        IdxTwice(|buf|, a + len, Off(rest, k + 1));
      }
    } else {
      FlatNone<B>();
      assert Read(buf, 0, 0) == [];
    }
  }

  lemma FlatNone<B>()
    ensures PQ.Flat<B>([]) == []
  {}

  lemma FlatOne<B>(it: Item<B>)
    ensures PQ.Flat([it]) == it.bytes && [it][..0] == [] && [it][..1] == [it]
  {
    assert [it][..0] == [];
  }

  /** A stream message read in part starts where the rest of it starts. */
  lemma ShortLaid<B>(buf: seq<B>, msgs: seq<Msg>, m: nat, it: Item<B>, n: nat)
    requires Laid(buf, msgs, [m], [it]) && n < |it.bytes| <= |buf| && m < |msgs|
    ensures Laid(buf, msgs[m := msgs[m].(start := Idx(|buf|, msgs[m].start + n))], [m], [it.(bytes := it.bytes[n..])])
  {
    hide Read, PQ.Flat, Idx;
    var (a, msgs') := (msgs[m].start, msgs[m := msgs[m].(start := Idx(|buf|, msgs[m].start + n))]);
    FlatNone<B>();
    FlatOne(it);
    FlatOne(it.(bytes := it.bytes[n..]));
    assert PlacedAt(|buf|, a, msgs, [m][0], [it], 0);
    ReadPart(buf, a, |it.bytes|, n);
    IdxTwice(|buf|, a + n, |it.bytes| - n);
    IdxWrap(|buf|, Idx(|buf|, a + n));
  }

  /** Taking the first message off the queue and putting it on the free list. */
  lemma PopLinked(msgs: seq<Msg>, head: Opt, tail: Opt, free: Opt, q: seq<nat>, idle: seq<nat>, stream: bool,
                  start: nat)
    requires Linked(msgs, head, tail, free, q, idle, stream) && q != []
    ensures var (m, one) := (q[0], |q| == 1);
            && m < |msgs|
            && Linked(msgs[m := Msg(free, start, msgs[m].end)], PR.AtOr(q, 1), if one then None else tail, Some(m),
                      q[1..], [m] + idle, stream && !one)
  {
    var (m, q', idle') := (q[0], q[1..], [q[0]] + idle);
    var msgs' := msgs[m := Msg(free, start, msgs[m].end)];
    assert Split(|msgs|, q', idle');
    assert Chain(msgs', q', stream && |q| > 1) by {
      forall k | 0 <= k < |q'| ensures q'[k] != m && msgs'[q'[k]] == msgs[q[k + 1]] {}
    }
    assert Chain(msgs', idle', false) by {
      assert m !in idle;
      forall k | 0 < k < |idle'| ensures msgs'[idle'[k]] == msgs[idle[k - 1]] {}
    }
  }

  // ----- writing -----

  /** Where the next byte goes: at the end of the last message, or at 0 on an empty ring. */
  function WriteAt(msgs: seq<Msg>, q: seq<nat>): nat
    requires q != [] ==> q[|q| - 1] < |msgs|
  {
    if q == [] then 0 else msgs[q[|q| - 1]].end
  }

  lemma WriteAtIs<B>(buf: seq<B>, msgs: seq<Msg>, q: seq<nat>, items: seq<Item<B>>)
    requires Laid(buf, msgs, q, items)
    ensures q != [] ==> q[|q| - 1] < |msgs|
    ensures WriteAt(msgs, q) == Idx(|buf|, Base(msgs, q) + |PQ.Flat(items)|)
  {
    assert items[..|items|] == items;
    FlatNone<B>();
    WrapZero(|buf|);
    hide Read, Idx, PQ.Flat;
    if q != [] { assert PlacedAt(|buf|, Base(msgs, q), msgs, q[|q| - 1], items, |q| - 1); }
  }

  /** Room left, as the write computes it from the end of the last message and the start of the first. */
  lemma RoomIs<B>(buf: seq<B>, msgs: seq<Msg>, q: seq<nat>, items: seq<Item<B>>)
    requires Laid(buf, msgs, q, items) && q != [] && 0 < |PQ.Flat(items)| <= |buf|
    ensures q[0] < |msgs| && q[|q| - 1] < |msgs| && msgs[q[0]].start <= |buf| && msgs[q[|q| - 1]].end <= |buf|
    ensures Space(|buf|, msgs[q[|q| - 1]].end, msgs[q[0]].start) == PQ.Room(|buf|, items)
  {
    WriteAtIs(buf, msgs, q, items);
    RoomBetween(|buf|, Base(msgs, q), |PQ.Flat(items)|);
    hide Read, Idx, PQ.Flat;
  }

  /** Offsets of messages already queued do not depend on what is queued behind them. */
  lemma OffPrefix<B>(items: seq<Item<B>>, items': seq<Item<B>>, k: nat)
    requires k <= |items| && k <= |items'| && items[..k] == items'[..k]
    ensures Off(items, k) == Off(items', k)
  {}

  lemma AppendPlaced<B>(n: nat, a: nat, msgs: seq<Msg>, msgs': seq<Msg>, q: seq<nat>, m: nat, items: seq<Item<B>>,
                        it: Item<B>)
    requires n > 0 && Placed(n, a, msgs, q, items) && |msgs'| == |msgs| && m < |msgs|
    requires m !in q && forall x :: 0 <= x < |msgs| && x != m ==>
             msgs'[x].start == msgs[x].start && msgs'[x].end == msgs[x].end
    requires var len := |PQ.Flat(items)|;
             msgs'[m].start == Idx(n, a + len) && msgs'[m].end == Idx(n, a + len + |it.bytes|)
    ensures Placed(n, a, msgs', q + [m], items + [it])
  {
    hide Idx, PQ.Flat;
    var (q', items') := (q + [m], items + [it]);
    PQ.FlatAppend(items, it);
    assert items'[..|q|] == items && items'[..|q| + 1] == items';
    forall k | 0 <= k < |q'| ensures PlacedAt(n, a, msgs', q'[k], items', k) {
      if k < |q| {
        assert PlacedAt(n, a, msgs, q[k], items, k);
        OffPrefix(items, items', k);
        OffPrefix(items, items', k + 1);
      }
    }
  }

  /** A new message behind the others. */
  lemma AppendLaid<B>(buf: seq<B>, msgs: seq<Msg>, msgs': seq<Msg>, q: seq<nat>, m: nat, items: seq<Item<B>>,
                      it: Item<B>)
    requires Laid(buf, msgs, q, items) && |PQ.Flat(items)| + |it.bytes| <= |buf| && |msgs'| == |msgs| && m < |msgs|
    requires m !in q && forall x :: 0 <= x < |msgs| && x != m ==>
             msgs'[x].start == msgs[x].start && msgs'[x].end == msgs[x].end
    requires msgs'[m].start == WriteAt(msgs, q) && msgs'[m].end == Idx(|buf|, WriteAt(msgs, q) + |it.bytes|)
    ensures WriteAt(msgs, q) < |buf| && Laid(Stored(buf, WriteAt(msgs, q), it.bytes), msgs', q + [m], items + [it])
  {
    WriteAtIs(buf, msgs, q, items);
    hide Read, Idx, PQ.Flat, Stored, Placed;
    var (a, len) := (Base(msgs, q), |PQ.Flat(items)|);
    assert q == [] ==> items == [] by { PlacedLength(|buf|, a, msgs, q, items); }
    FlatNone<B>();
    WrapZero(|buf|);
    assert a == Base(msgs', q + [m]);
    PQ.FlatAppend(items, it);
    StoredRead(buf, a, len, it.bytes);
    IdxTwice(|buf|, a + len, |it.bytes|);
    AppendPlaced(|buf|, a, msgs, msgs', q, m, items, it);
  }

  lemma PlacedLength<B>(n: nat, a: nat, msgs: seq<Msg>, q: seq<nat>, items: seq<Item<B>>)
    requires n > 0 && Placed(n, a, msgs, q, items)
    ensures |items| == |q| && (q != [] ==> q[0] < |msgs| && q[|q| - 1] < |msgs|)
  {
    assert q != [] ==> PlacedAt(n, a, msgs, q[0], items, 0) && PlacedAt(n, a, msgs, q[|q| - 1], items, |q| - 1);
  }

  lemma WrapZero(n: nat)
    requires n > 0
    ensures Idx(n, 0) == 0
  {}

  lemma ExtendedOff<B>(items: seq<Item<B>>, data: seq<B>, k: nat)
    requires PQ.Extends(items) && k <= |items|
    ensures |PQ.Appended(items, data, false)| == |items|
    ensures Off(PQ.Appended(items, data, false), k) == Off(items, k) + if k == |items| then |data| else 0
  {
    var items' := PQ.Appended(items, data, false);
    if k == |items| {
      PQ.FlatAppended(items, data, false);
      assert items'[..k] == items' && items[..k] == items;
    } else {
      assert items'[..k] == items[..k];
    }
    hide PQ.Flat;
  }

  lemma ExtendPlaced<B>(n: nat, a: nat, msgs: seq<Msg>, q: seq<nat>, items: seq<Item<B>>, data: seq<B>, end: nat)
    requires n > 0 && Placed(n, a, msgs, q, items) && PR.Distinct(q) && PQ.Extends(items)
    requires end == Idx(n, a + |PQ.Flat(items)| + |data|)
    ensures var m := q[|q| - 1];
            m < |msgs| && Placed(n, a, msgs[m := msgs[m].(end := end)], q, PQ.Appended(items, data, false))
  {
    hide Idx, PQ.Flat, PQ.Appended;
    assert items[..|items|] == items;
    assert Off(items, |items|) == |PQ.Flat(items)| && items != [];
    hide Off, PQ.Extends;
    ExtendedOff(items, data, 0);
    var (m, items', last) := (q[|q| - 1], PQ.Appended(items, data, false), |q| - 1);
    assert PlacedAt(n, a, msgs, m, items, last);
    var msgs' := msgs[m := msgs[m].(end := end)];
    forall k | 0 <= k < |q| ensures PlacedAt(n, a, msgs', q[k], items', k) {
      assert PlacedAt(n, a, msgs, q[k], items, k);
      ExtendedOff(items, data, k);
      ExtendedOff(items, data, k + 1);
    }
  }

  /** The stream message, which is the last one, made longer. */
  lemma ExtendLaid<B>(buf: seq<B>, msgs: seq<Msg>, q: seq<nat>, items: seq<Item<B>>, data: seq<B>)
    requires Laid(buf, msgs, q, items) && PR.Distinct(q) && PQ.Extends(items) && |PQ.Flat(items)| + |data| <= |buf|
    ensures q != [] && q[|q| - 1] < |msgs| && WriteAt(msgs, q) < |buf|
    ensures var m := q[|q| - 1];
            Laid(Stored(buf, WriteAt(msgs, q), data),
                 msgs[m := msgs[m].(end := Idx(|buf|, WriteAt(msgs, q) + |data|))], q,
                 PQ.Appended(items, data, false))
  {
    hide Read, Idx, PQ.Flat, Stored, Placed;
    WriteAtIs(buf, msgs, q, items);
    var (a, len) := (Base(msgs, q), |PQ.Flat(items)|);
    PlacedLength(|buf|, a, msgs, q, items);
    assert q != [];
    var end := Idx(|buf|, WriteAt(msgs, q) + |data|);
    assert Base(msgs[q[|q| - 1] := msgs[q[|q| - 1]].(end := end)], q) == a;
    hide PQ.Appended, PQ.Extends, PR.Distinct, Base;
    PQ.FlatAppended(items, data, false);
    StoredRead(buf, a, len, data);
    IdxTwice(|buf|, a + len, |data|);
    ExtendPlaced(|buf|, a, msgs, q, items, data, end);
  }

  /** The messages after a free one has been queued behind the last. */
  function Queued(msgs: seq<Msg>, q: seq<nat>, m: nat, next: Opt, start: nat, end: nat): seq<Msg>
    requires m < |msgs| && (q != [] ==> q[|q| - 1] < |msgs|)
  {
    var msgs' := msgs[m := Msg(next, start, end)];
    if q == [] then msgs' else msgs'[q[|q| - 1] := msgs'[q[|q| - 1]].(next := Some(m))]
  }

  lemma PushLinked(msgs: seq<Msg>, head: Opt, tail: Opt, free: Opt, q: seq<nat>, idle: seq<nat>, stream: bool,
                   start: nat, end: nat)
    requires Linked(msgs, head, tail, free, q, idle, false) && idle != []
    ensures var m := idle[0];
            && m < |msgs| && (q != [] ==> q[|q| - 1] < |msgs|)
            && Linked(Queued(msgs, q, m, if stream then Some(m) else None, start, end),
                      if q == [] then Some(m) else head, Some(m),
                      msgs[m].next, q + [m], idle[1..], stream)
  {
    var (m, q', idle') := (idle[0], q + [idle[0]], idle[1..]);
    var msgs' := Queued(msgs, q, m, if stream then Some(m) else None, start, end);
    assert msgs[idle[0]].next == PR.AtOr(idle, 1) == PR.AtOr(idle', 0);
    PushSplit(|msgs|, q, idle);
    assert Chain(msgs', idle', false) by {
      hide Linked;
      forall k | 0 <= k < |idle'| ensures idle'[k] != m && idle'[k] !in q && msgs'[idle'[k]] == msgs[idle[k + 1]] {}
    }
    assert Chain(msgs', q', stream) by {
      forall k | 0 <= k < |q| ensures msgs'[q[k]].next == PR.AtOr(q', k + 1) {
        assert msgs[q[k]].next == PR.AtOr(q, k + 1);
      }
    }
    hide Chain, Split, Queued;
  }

  lemma PushSplit(count: nat, q: seq<nat>, idle: seq<nat>)
    requires Split(count, q, idle) && idle != []
    ensures Split(count, q + [idle[0]], idle[1..])
  {
    var (m, q', idle') := (idle[0], q + [idle[0]], idle[1..]);
    assert m in idle && m !in idle';
    forall k | 0 <= k < |q'| ensures q'[k] !in idle' {}
  }

  lemma ExtendLinked(msgs: seq<Msg>, head: Opt, tail: Opt, free: Opt, q: seq<nat>, idle: seq<nat>, stream: bool,
                     m: nat, start: nat, end: nat)
    requires Linked(msgs, head, tail, free, q, idle, stream) && m < |msgs|
    ensures Linked(msgs[m := msgs[m].(start := start, end := end)], head, tail, free, q, idle, stream)
  {}

  lemma Ends<B>(buf: seq<B>, msgs: seq<Msg>, head: Opt, tail: Opt, free: Opt, q: seq<nat>, idle: seq<nat>,
                items: seq<Item<B>>)
    requires Linked(msgs, head, tail, free, q, idle, PQ.Extends(items)) && Laid(buf, msgs, q, items)
    ensures |items| == |q|
    ensures head.None? <==> q == []
    ensures tail.None? <==> q == []
    ensures free.None? <==> |q| >= |msgs|
  {}

  /** What a read finds out about the first message from its links. */
  lemma FirstFacts<B>(buf: seq<B>, msgs: seq<Msg>, head: Opt, tail: Opt, free: Opt, q: seq<nat>, idle: seq<nat>,
                      a: PQ.Queue<B>)
    requires Linked(msgs, head, tail, free, q, idle, PQ.Extends(a.items)) && |a.items| == |q| && q != []
             && PQ.Formed(|buf|, a)
    ensures head == Some(q[0]) && q[0] < |msgs| && 0 < |a.items[0].bytes| <= |buf| && PR.Distinct(q)
    ensures a.items[0].packet <==> msgs[q[0]].next != Some(q[0])
    ensures a.items[0].packet ==> msgs[q[0]].next == PR.AtOr(q, 1)
    ensures !a.items[0].packet ==> |q| == 1
  {
    PQ.FlatFirst(a.items);
    hide PQ.Flat;
    if |q| > 1 { assert q[0] != q[1]; }
    assert msgs[q[0]].next == if PQ.Extends(a.items) && |q| == 1 then Some(q[0]) else PR.AtOr(q, 1);
  }

  lemma FirstBytes<B>(buf: seq<B>, msgs: seq<Msg>, q: seq<nat>, items: seq<Item<B>>, n: nat)
    requires Laid(buf, msgs, q, items) && q != [] && 0 < |items[0].bytes| <= |buf| && n <= |items[0].bytes|
    ensures q[0] < |msgs| && Read(buf, msgs[q[0]].start, n) == items[0].bytes[..n]
  {
    FirstLength(buf, msgs, q, items);
    PQ.FlatFirst(items);
    ReadPart(buf, Base(msgs, q), |PQ.Flat(items)|, n);
    hide Read, PQ.Flat, Idx;
  }

  lemma FreeFacts(msgs: seq<Msg>, head: Opt, tail: Opt, free: Opt, q: seq<nat>, idle: seq<nat>, stream: bool)
    requires Linked(msgs, head, tail, free, q, idle, stream) && free.Some?
    ensures idle != [] && free.v == idle[0] && free.v < |msgs| && free.v !in q
    ensures tail == (if q == [] then None else Some(q[|q| - 1])) && (tail.Some? ==> tail.v < |msgs|)
  {}

  lemma LastFacts<B>(msgs: seq<Msg>, head: Opt, tail: Opt, free: Opt, q: seq<nat>, idle: seq<nat>, items: seq<Item<B>>)
    requires Linked(msgs, head, tail, free, q, idle, PQ.Extends(items)) && |items| == |q|
    ensures PR.Distinct(q) && head == PR.AtOr(q, 0)
    ensures tail.Some? ==>
            q != [] && tail.v == q[|q| - 1] && tail.v < |msgs| && (PQ.Extends(items) <==> msgs[tail.v].next == tail)
  {}

  /** The capacity a write computes is the room in the queue. */
  lemma RoomFacts<B>(buf: seq<B>, msgs: seq<Msg>, q: seq<nat>, a: PQ.Queue<B>)
    requires Laid(buf, msgs, q, a.items) && PQ.Formed(|buf|, a)
    ensures q == [] ==> PQ.Room(|buf|, a.items) == |buf|
    ensures q != [] ==> && q[0] < |msgs| && q[|q| - 1] < |msgs| && msgs[q[0]].start <= |buf|
                        && msgs[q[|q| - 1]].end <= |buf|
    ensures q != [] ==> Space(|buf|, msgs[q[|q| - 1]].end, msgs[q[0]].start) == PQ.Room(|buf|, a.items)
  {
    hide Read, Idx;
    if q != [] {
      PQ.FlatFirst(a.items);
      RoomIs(buf, msgs, q, a.items);
    }
  }

  lemma QueuedPlaces(msgs: seq<Msg>, q: seq<nat>, m: nat, next: Opt, start: nat, end: nat)
    requires m < |msgs| && m !in q && (q != [] ==> q[|q| - 1] < |msgs|)
    ensures var msgs' := Queued(msgs, q, m, next, start, end);
            && |msgs'| == |msgs| && msgs'[m].start == start && msgs'[m].end == end
            && (forall x :: 0 <= x < |msgs| && x != m ==>
                 msgs'[x].start == msgs[x].start && msgs'[x].end == msgs[x].end)
  {}

  /** The state behind a packet that has been read. */
  lemma PacketTaken<B>(buf: seq<B>, msgs: seq<Msg>, head: Opt, tail: Opt, free: Opt, q: seq<nat>, idle: seq<nat>,
                       a: PQ.Queue<B>)
    requires Linked(msgs, head, tail, free, q, idle, PQ.Extends(a.items)) && Laid(buf, msgs, q, a.items)
             && PQ.Formed(|buf|, a)
    requires a.items != [] && a.items[0].packet
    ensures head.Some? && head.v < |msgs| && q != [] && (msgs[head.v].next.None? <==> a.items[1..] == [])
    ensures var (m, next, rest) := (head.v, msgs[head.v].next, a.items[1..]);
            var msgs' := msgs[m := msgs[m].(next := free)];
            && Linked(msgs', next, if next.None? then None else tail, Some(m), q[1..], [m] + idle, PQ.Extends(rest))
            && Laid(buf, msgs', q[1..], rest)
  {
    hide Linked, Laid, PQ.Formed, Read;
    Ends(buf, msgs, head, tail, free, q, idle, a.items);
    FirstFacts(buf, msgs, head, tail, free, q, idle, a);
    var m := head.v;
    assert PQ.Extends(a.items[1..]) == (PQ.Extends(a.items) && |q| != 1);
    hide PQ.Extends;
    PopLinked(msgs, head, tail, free, q, idle, PQ.Extends(a.items), msgs[m].start);
    PopLaid(buf, msgs, msgs[m := msgs[m].(next := free)], q, a.items);
  }

  /** The state behind a new message. */
  lemma Enqueued<B>(buf: seq<B>, msgs: seq<Msg>, head: Opt, tail: Opt, free: Opt, q: seq<nat>, idle: seq<nat>,
                    items: seq<Item<B>>, it: Item<B>)
    requires Linked(msgs, head, tail, free, q, idle, false) && Laid(buf, msgs, q, items) && !PQ.Extends(items)
    requires free.Some? && 0 < |it.bytes| <= PQ.Room(|buf|, items)
    ensures idle != [] && free.v == idle[0] && free.v < |msgs| && tail == (if q == [] then None else Some(q[|q| - 1]))
    ensures (q != [] ==> q[|q| - 1] < |msgs|) && WriteAt(msgs, q) < |buf|
    ensures var (m, at) := (free.v, WriteAt(msgs, q));
            var msgs' := Queued(msgs, q, m, if it.packet then None else Some(m), at, Idx(|buf|, at + |it.bytes|));
            && Linked(msgs', if q == [] then Some(m) else head, Some(m), msgs[m].next, q + [m], idle[1..],
                 PQ.Extends(items + [it]))
            && Laid(Stored(buf, at, it.bytes), msgs', q + [m], items + [it])
  {
    hide Linked, Laid, Read, Stored, Idx, PQ.Flat, Queued;
    FreeFacts(msgs, head, tail, free, q, idle, false);
    var (m, next, at) := (free.v, if it.packet then None else Some(free.v), WriteAt(msgs, q));
    PushLinked(msgs, head, tail, free, q, idle, !it.packet, at, Idx(|buf|, at + |it.bytes|));
    QueuedPlaces(msgs, q, m, next, at, Idx(|buf|, at + |it.bytes|));
    AppendLaid(buf, msgs, Queued(msgs, q, m, next, at, Idx(|buf|, at + |it.bytes|)), q, m, items, it);
  }

  // ----- the pipe -----

  class Node<B(0)> {
    const buf: array<B>
    var head: Opt
    var tail: Opt
    var free: Opt
    var msgs: seq<Msg>
    var hup: bool
    var pollin: bool
    var pollout: bool
    ghost var q: seq<nat>
    ghost var idle: seq<nat>
    ghost var items: seq<Item<B>>

    /** The plain queue this pipe stands for. */
    ghost function Value(): PQ.Queue<B>
      reads this
    {
      PQ.Queue(items, hup, pollin, pollout)
    }

    /** The messages, links and bytes hold the queue `items`. */
    ghost predicate Built()
      reads this, buf
    {
      Linked(msgs, head, tail, free, q, idle, PQ.Extends(items)) && Laid(buf[..], msgs, q, items)
    }

    ghost predicate Valid()
      reads this, buf
    {
      Built() && PQ.Formed(buf.Length, Value())
    }

    constructor (size: nat, count: nat)
      requires size > 0 && count > 0
      ensures Valid() && fresh(buf) && buf.Length == size && |msgs| == count && Value() == PQ.Empty()
    {
      buf := new B[size];
      head, tail, free := None, None, Some(0);
      msgs := seq(count, i requires 0 <= i => Msg(if i + 1 < count then Some(i + 1) else None, 0, 0));
      hup, pollin, pollout := false, false, true;
      q, idle, items := [], seq(count, i requires 0 <= i => i), [];
    }

    /** Unlinking a packet, and clearing the tail behind the last one. */
    method TakePacket()
      requires Valid() && items != [] && items[0].packet
      modifies this
      ensures Built() && |msgs| == old(|msgs|) && items == old(items[1..])
      ensures hup == old(hup) && pollout == old(pollout) && pollin == (old(pollin) && items != [])
    {
      hide Linked, Laid, PQ.Formed, Ring.Read;
      PacketTaken(buf[..], msgs, head, tail, free, q, idle, Value());
      hide PQ.Extends;
      var m := head.v;
      head := msgs[m].next;
      if msgs[m].next.None? {
        tail := None;
        pollin := false;
      }
      msgs := msgs[m := msgs[m].(next := free)];
      free := Some(m);
      q, idle, items := q[1..], [m] + idle, items[1..];
    }

    /** Unlinking the stream message, marked as drained. */
    method TakeStream()
      requires Valid() && items != [] && !items[0].packet
      modifies this
      ensures Built() && |msgs| == old(|msgs|) && items == old(items[1..])
      ensures hup == old(hup) && pollout == old(pollout) && !pollin && items == []
    {
      hide Linked, Laid, PQ.Formed, Ring.Read;
      Ends(buf[..], msgs, head, tail, free, q, idle, items);
      FirstFacts(buf[..], msgs, head, tail, free, q, idle, Value());
      var m := head.v;
      PopLinked(msgs, head, tail, free, q, idle, PQ.Extends(items), buf.Length);
      head := None;
      ghost var was := msgs;
      msgs := msgs[m := msgs[m].(start := buf.Length)];
      pollin := false;
      tail := None;
      msgs := msgs[m := msgs[m].(next := free)];
      assert msgs == was[m := Msg(free, msgs[m].start, was[m].end)];
      free := Some(m);
      PopLaid(buf[..], was, msgs, q, items);
      q, idle, items := q[1..], [m] + idle, items[1..];
    }

    /** Moving the start of the stream message past `n` bytes of it. */
    method TakePart(n: nat)
      requires Valid() && items != [] && !items[0].packet && n < |items[0].bytes|
      modifies this
      ensures Built() && |msgs| == old(|msgs|) && items == PQ.Shortened(old(items), n)
      ensures hup == old(hup) && pollout == old(pollout) && pollin == old(pollin)
    {
      hide Linked, Laid, PQ.Formed, Ring.Read;
      Ends(buf[..], msgs, head, tail, free, q, idle, items);
      FirstFacts(buf[..], msgs, head, tail, free, q, idle, Value());
      var m := head.v;
      var lim := Idx(buf.Length, msgs[m].start + n);
      assert q == [m] && items == [items[0]];
      ShortLaid(buf[..], msgs, m, items[0], n);
      ExtendLinked(msgs, head, tail, free, q, idle, true, m, lim, msgs[m].end);
      msgs := msgs[m := msgs[m].(start := lim)];
      items := [items[0].(bytes := items[0].bytes[n..])];
    }

    /** A read that runs to its end with no other reader in between: every compare-and-swap succeeds. */
    method Read(want: nat, off: nat) returns (r: PQ.Reply, out: seq<B>)
      requires Valid()
      modifies this
      ensures Valid() && |msgs| == old(|msgs|)
      ensures (Value(), r, out) == PQ.Read(old(Value()), want, off)
    {
      hide Linked, Laid, PQ.Formed, Ring.Read;
      Ends(buf[..], msgs, head, tail, free, q, idle, items);
      PQ.ReadFormed(buf.Length, |msgs|, Value(), want, off);
      if off != 0 { return PQ.NoSeek, []; }
      if want == 0 { return PQ.Count(0), []; }
      if head.None? {
        pollin := false;
        r := if hup then PQ.Count(0) else PQ.Again;
        return r, [];
      }
      FirstFacts(buf[..], msgs, head, tail, free, q, idle, Value());
      FirstLength(buf[..], msgs, q, items);
      var m := head.v;
      var start := msgs[m].start;
      var avail := Used(buf.Length, start, msgs[m].end);
      var n := Min(avail, want);
      FirstBytes(buf[..], msgs, q, items, n);
      if msgs[m].next != Some(m) {
        TakePacket();
      } else if n == avail {
        TakeStream();
      } else {
        TakePart(n);
      }
      out := CopyOut(buf, start, n);
      pollout := true;
      r := PQ.Count(n);
    }
  
    /** Queueing a free message that holds `data`. */
    method Enqueue(whead: nat, data: seq<B>, direct: bool)
      requires Valid() && !PQ.Extends(items) && free.Some? && whead == WriteAt(msgs, q)
               && 0 < |data| <= PQ.Room(buf.Length, items)
      modifies this, buf
      ensures Built() && |msgs| == old(|msgs|) && items == old(items) + [PQ.Item(data, direct)]
      ensures hup == old(hup) && pollout == old(pollout) && pollin == old(pollin)
    {
      hide Linked, Laid, PQ.Formed, Ring.Read, Stored, Idx, PQ.Flat;
      Enqueued(buf[..], msgs, head, tail, free, q, idle, items, PQ.Item(data, direct));
      hide PQ.Extends;
      var m := free.v;
      var wend := Idx(buf.Length, whead + |data|);
      free := msgs[m].next;
      msgs := msgs[m := Msg(if direct then None else Some(m), whead, wend)];
      if tail.Some? {
        msgs := msgs[tail.v := msgs[tail.v].(next := Some(m))];
      } else {
        head := Some(m);
      }
      tail := Some(m);
      CopyIn(buf, whead, data);
      q, idle, items := q + [m], idle[1..], items + [PQ.Item(data, direct)];
    }

    /** Making the stream message longer by `data`. */
    method Extend(whead: nat, data: seq<B>)
      requires Valid() && PQ.Extends(items) && tail.Some? && whead == WriteAt(msgs, q)
               && 0 < |data| <= PQ.Room(buf.Length, items)
      modifies this, buf
      ensures Built() && |msgs| == old(|msgs|) && items == PQ.Appended(old(items), data, false)
      ensures hup == old(hup) && pollout == old(pollout) && pollin == old(pollin)
    {
      hide Linked, Laid, PQ.Formed, Ring.Read, Stored, Idx, PQ.Flat;
      Ends(buf[..], msgs, head, tail, free, q, idle, items);
      LastFacts(msgs, head, tail, free, q, idle, items);
      var wend := Idx(buf.Length, whead + |data|);
      ExtendLaid(buf[..], msgs, q, items, data);
      ExtendLinked(msgs, head, tail, free, q, idle, true, tail.v, msgs[tail.v].start, wend);
      msgs := msgs[tail.v := msgs[tail.v].(end := wend)];
      CopyIn(buf, whead, data);
      items := PQ.Appended(items, data, false);
    }

    method Write(data: seq<B>, off: nat, direct: bool) returns (r: PQ.Reply)
      requires Valid()
      modifies this, buf
      ensures Valid() && |msgs| == old(|msgs|)
      ensures (Value(), r) == PQ.Write(buf.Length, |msgs|, old(Value()), data, off, direct)
    {
      hide Linked, Laid, PQ.Formed, Ring.Read, Idx, PQ.Flat;
      PQ.WriteFormed(buf.Length, |msgs|, Value(), data, off, direct);
      if off != 0 { return PQ.NoSeek; }
      if hup { return PQ.Broken; }
      if data == [] { return PQ.Count(0); }
      Ends(buf[..], msgs, head, tail, free, q, idle, items);
      LastFacts(msgs, head, tail, free, q, idle, items);
      RoomFacts(buf[..], msgs, q, Value());
      var empty := tail.None?;
      var whead := if empty then 0 else msgs[tail.v].end;
      var wend := if empty then buf.Length else msgs[head.v].start;
      var capacity := Space(buf.Length, whead, wend);
      var n := Min(capacity, |data|);
      if n == 0 {
        pollout := false;
        return PQ.Again;
      }
      if tail.None? || msgs[tail.v].next != tail {
        if free.None? {
          pollout := false;
          return PQ.Again;
        }
        Enqueue(whead, data[..n], direct);
      } else {
        Extend(whead, data[..n]);
      }
      if n == capacity { pollout := false; }
      if empty { pollin := true; }
      r := PQ.Count(n);
    }

    /** The other end has been released. */
    method HangUp()
      requires Valid()
      modifies this
      ensures Valid() && |msgs| == old(|msgs|) && Value() == PQ.HangUp(old(Value()))
    {
      hup := true;
      pollin := true;
    }
  }

  /** What the writers leave is a queue from which concurrent readers start. */
  lemma LeavesQueue<B>(buf: seq<B>, msgs: seq<Msg>, head: Opt, tail: Opt, free: Opt, q: seq<nat>, idle: seq<nat>,
                       a: PQ.Queue<B>, readers: nat)
    requires Linked(msgs, head, tail, free, q, idle, PQ.Extends(a.items)) && Laid(buf, msgs, q, a.items)
             && PQ.Formed(|buf|, a)
    ensures PR.Queue(Idle(|buf|, msgs, head, tail, free, readers), q, PQ.Extends(a.items))
    ensures forall k :: 0 <= k < |q| ==> q[k] < |msgs| && msgs[q[k]].start < |buf| && msgs[q[k]].end < |buf|
  {
    hide Laid, PQ.Formed, Idle, Linked, PR.AtOr, PR.Distinct;
    InBounds(buf, msgs, q, a.items);
    Ends(buf, msgs, head, tail, free, q, idle, a.items);
    LinkFacts(msgs, head, tail, free, q, idle, PQ.Extends(a.items));
    IdleIs(|buf|, msgs, head, tail, free, readers);
    var i := Idle(|buf|, msgs, head, tail, free, readers);
    forall k | 0 <= k < |q|
      ensures i.next[q[k]] == if PQ.Extends(a.items) && k == |q| - 1 then Some(q[k]) else PR.AtOr(q, k + 1)
    {
      assert msgs[q[k]].next == i.next[q[k]];
    }
    hide Chain;
  }

  lemma {:induction false} FlatAt<B>(items: seq<Item<B>>, k: nat)
    requires k < |items|
    ensures Off(items, k) + |items[k].bytes| == Off(items, k + 1) <= |PQ.Flat(items)|
    ensures PQ.Flat(items)[Off(items, k)..Off(items, k + 1)] == items[k].bytes
  {
    var n := |items| - 1;
    assert items[..n + 1] == items;
    if k < n {
      FlatAt(items[..n], k);
      assert items[..n][..k] == items[..k] && items[..n][..k + 1] == items[..k + 1];
      assert PQ.Flat(items) == PQ.Flat(items[..n]) + items[n].bytes;
    }
  }

  /** A reader that claims the first bytes of message `k` gets the first bytes written to it. */
  lemma ClaimedBytes<B>(buf: seq<B>, msgs: seq<Msg>, q: seq<nat>, a: PQ.Queue<B>, k: nat, n: nat)
    requires Laid(buf, msgs, q, a.items) && PQ.Formed(|buf|, a) && k < |q| == |a.items| && n <= |a.items[k].bytes|
    ensures q[k] < |msgs| && msgs[q[k]].start < |buf| && msgs[q[k]].end < |buf|
    ensures Used(|buf|, msgs[q[k]].start, msgs[q[k]].end) == |a.items[k].bytes|
    ensures Read(buf, msgs[q[k]].start, n) == a.items[k].bytes[..n]
  {
    var (base, off, len) := (Base(msgs, q), Off(a.items, k), |PQ.Flat(a.items)|);
    var bytes := a.items[k].bytes;
    FlatAt(a.items, k);
    hide Read, Idx, PQ.Flat, Off;
    assert PlacedAt(|buf|, base, msgs, q[k], a.items, k);
    ReadPart(buf, base, len, off);
    ReadPart(buf, Idx(|buf|, base + off), len - off, n);
    assert PQ.Flat(a.items)[off..][..n] == bytes[..n];
    IdxTwice(|buf|, base + off, |bytes|);
    IdxSpaceLen(|buf|, msgs[q[k]].start, |bytes|);
  }

  lemma LinkFacts(msgs: seq<Msg>, head: Opt, tail: Opt, free: Opt, q: seq<nat>, idle: seq<nat>, stream: bool)
    requires Linked(msgs, head, tail, free, q, idle, stream)
    ensures PR.Distinct(q) && Chain(msgs, q, stream) && head == PR.AtOr(q, 0)
    ensures tail == (if q == [] then None else Some(q[|q| - 1])) && (free.Some? ==> free.v !in q)
  {
    hide Chain;
    if free.Some? { assert free.v == idle[0]; }
  }

  lemma IdleIs(size: nat, msgs: seq<Msg>, head: Opt, tail: Opt, free: Opt, readers: nat)
    ensures var i := Idle(size, msgs, head, tail, free, readers);
            && i.size == size && i.head == head && i.tail == tail && i.free == free
            && |i.next| == |i.start| == |i.end| == |msgs|
            && (forall m :: 0 <= m < |msgs| ==>
                 i.next[m] == msgs[m].next && i.start[m] == msgs[m].start && i.end[m] == msgs[m].end)
            && (forall t :: 0 <= t < |i.readers| ==> i.readers[t].pc == PR.Rest)
            && i.claims == [] && i.takers == [] && i.freed == [] && i.pushers == []
  {}

  lemma InBounds<B>(buf: seq<B>, msgs: seq<Msg>, q: seq<nat>, items: seq<Item<B>>)
    requires Laid(buf, msgs, q, items)
    ensures |buf| > 0 && forall k :: 0 <= k < |q| ==>
            q[k] < |msgs| && msgs[q[k]].start < |buf| && msgs[q[k]].end < |buf|
  {
    hide Read, PQ.Flat, Idx;
    forall k | 0 <= k < |q| ensures q[k] < |msgs| && msgs[q[k]].start < |buf| && msgs[q[k]].end < |buf| {
      assert PlacedAt(|buf|, Base(msgs, q), msgs, q[k], items, k);
    }
  }

  /** The pipe with so many readers, none of them in a call. */
  function Idle(size: nat, msgs: seq<Msg>, head: Opt, tail: Opt, free: Opt, readers: nat): PR.State {
    PR.State(size, head, tail, free,
             seq(|msgs|, i requires 0 <= i < |msgs| => msgs[i].next),
             seq(|msgs|, i requires 0 <= i < |msgs| => msgs[i].start),
             seq(|msgs|, i requires 0 <= i < |msgs| => msgs[i].end),
             seq(readers, i => PR.Reader(0, PR.Rest)), [], [], [], [])
  }
}
