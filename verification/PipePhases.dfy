/** Phases that follow each other: what concurrent readers leave behind is again a pipe, with the messages
    and bytes they did not take, from which writers and further readers go on. */
module PipePhases {
  import opened Basics
  import opened Ring
  import PQ = PipeQueue
  import PR = PipeReaders
  import PN = PipeNode

  // ----- the stream message is touched only as the last one -----

  ghost predicate Late(i: PR.State, q: seq<nat>, stream: bool, s: PR.State) {
    stream && |s.takers| + 1 < |q| ==> s.start == i.start
  }

  lemma SeenLast(q: seq<nat>, s: PR.State, m: nat)
    requires PR.Seen(q, s, m) && PR.Distinct(q) && m == q[|q| - 1]
    ensures |s.takers| + 1 >= |q|
  {}

  lemma AdvanceLate(i: PR.State, q: seq<nat>, stream: bool, s: PR.State, t: nat)
    requires PR.Queue(i, q, stream) && PR.Good(i, q, stream, s) && Late(i, q, stream, s)
    requires t < |s.readers| && PR.Bounded(s, s.readers[t].pc)
    ensures Late(i, q, stream, PR.Advance(s, t))
  {
    var pc := s.readers[t].pc;
    assert PR.PcOk(i, q, stream, s, s.readers[t]) && PR.Distinct(q);
    hide PR.Queue, PR.Inv, PR.ClaimsOk, PR.Distinct, PR.Seen;
    if PR.Drains(s, pc) || PR.TakesPart(s, pc) { SeenLast(q, s, pc.m); }
  }

  lemma {:induction false} RunLate(i: PR.State, q: seq<nat>, stream: bool, s: PR.State, ls: seq<PR.Label>)
    requires PR.Queue(i, q, stream) && PR.Good(i, q, stream, s) && Late(i, q, stream, s) && PR.LegalRun(s, ls)
    ensures Late(i, q, stream, PR.Exec(s, ls))
    decreases |ls|
  {
    hide PR.Queue, PR.Good;
    if ls != [] {
      PR.StepGood(i, q, stream, s, ls[0]);
      if ls[0].Run? { AdvanceLate(i, q, stream, s, ls[0].t); }
      RunLate(i, q, stream, PR.Step(s, ls[0]), ls[1..]);
    }
  }

  // ----- the state when all calls have returned -----

  ghost predicate Returned(s: PR.State) { forall t :: 0 <= t < |s.readers| ==> s.readers[t].pc == PR.Rest }

  /** Which messages are left, where the stream message now starts, and what else is as it was. */
  ghost predicate Settled(i: PR.State, q: seq<nat>, stream: bool, s: PR.State) {
    var t := |s.takers|;
    && t <= |q| && s.size == i.size && s.end == i.end && |s.next| == |i.next| == |s.start| == |i.start| == |i.end|
    && s.head == PR.AtOr(q, t) && s.tail == (if t == |q| then None else i.tail)
    && PR.Distinct(s.freed) && (forall m :: m in s.freed <==> m in q[..t])
    && s.free == PR.PrevFree(i, s.freed, |s.freed|)
    && (forall k :: 0 <= k < |s.freed| ==> s.freed[k] < |s.next| && s.next[s.freed[k]] == PR.PrevFree(i, s.freed, k))
    && (forall m :: 0 <= m < |i.next| && m !in s.freed ==> s.next[m] == i.next[m])
    && (forall m :: 0 <= m < |i.start| && !PR.IsStream(q, stream, m) ==> s.start[m] == i.start[m])
  }

  lemma GoodParts(i: PR.State, q: seq<nat>, stream: bool, s: PR.State)
    requires PR.Queue(i, q, stream) && PR.Good(i, q, stream, s)
    ensures s.size == i.size && s.end == i.end && |s.next| == |i.next| == |s.start| == |i.start| == |i.end|
    ensures forall m :: 0 <= m < |i.next| && m !in s.freed ==> s.next[m] == i.next[m]
    ensures forall m :: 0 <= m < |i.start| && !PR.IsStream(q, stream, m) ==> s.start[m] == i.start[m]
  {
    hide PR.ClaimsOk, PR.LinksOk, PR.HandsOk, PR.ReadersOk, PR.DrainOk, PR.TailOk, PR.HeadOk, PR.Distinct, PR.IsStream,
         PR.Taken;
  }

  lemma Settles(i: PR.State, q: seq<nat>, stream: bool, ls: seq<PR.Label>)
    requires PR.Queue(i, q, stream) && PR.LegalRun(i, ls) && Returned(PR.Exec(i, ls))
    ensures Settled(i, q, stream, PR.Exec(i, ls))
  {
    hide PR.Exec, PR.LegalRun, PR.Good, PR.Queue, PR.PrevFree, PR.Distinct, PR.IsStream;
    PR.AtRest(i, q, stream, ls);
    PR.InitialGood(i, q, stream);
    PR.RunGood(i, q, stream, i, ls);
    GoodParts(i, q, stream, PR.Exec(i, ls));
  }

  /** The stream message `m` when `t` of `c` messages are taken and `n` bytes of it are claimed: if it is left
      it has lost those bytes, and none while it is not first. */
  ghost predicate Shortened(i: PR.State, s: PR.State, m: nat, t: nat, c: nat, n: nat) {
    && m < |s.start| == |i.start| == |i.end| && i.start[m] < i.size && i.end[m] < i.size
    && (t < c ==> n < PR.Whole(i, m) && s.start[m] == Idx(i.size, i.start[m] + n))
    && (t == c ==> n == PR.Whole(i, m))
    && (t + 1 < c ==> n == 0)
  }

  lemma ShortenedIs(i: PR.State, q: seq<nat>, s: PR.State)
    requires q != [] && |s.takers| <= |q| && q[|q| - 1] < |i.start| && PR.StartOk(i, q, true, s)
             && PR.DrainOk(i, q, true, s) && Late(i, q, true, s) && Returned(s)
    requires forall j :: 0 <= j < |s.takers| ==> s.takers[j] < |s.readers|
    ensures var m := q[|q| - 1];
            && m < |i.start| == |i.end| == |s.start| && i.start[m] < i.size && i.end[m] < i.size && s.start[m] <= i.size
            && Shortened(i, s, m, |s.takers|, |q|, PR.Gone(i, s, m))
  {
    hide Idx;
    var m := q[|q| - 1];
    if s.start[m] < i.size { IdxSpace(i.size, i.start[m], s.start[m]); }
  }

  lemma StreamLeft(i: PR.State, q: seq<nat>, ls: seq<PR.Label>)
    requires PR.Queue(i, q, true) && PR.LegalRun(i, ls) && Returned(PR.Exec(i, ls))
    ensures var s := PR.Exec(i, ls); Shortened(i, s, q[|q| - 1], |s.takers|, |q|, PR.StreamLen(q, true, s.claims))
  {
    PR.InitialGood(i, q, true);
    PR.RunGood(i, q, true, i, ls);
    RunLate(i, q, true, i, ls);
    hide PR.Exec, PR.LegalRun, PR.ClaimsFit, PR.StreamLen, PR.LinksOk, PR.FreeOk, PR.TailOk, PR.ReadersOk, PR.StartOk,
         PR.DrainOk, PR.Gone, Shortened, Returned, Late;
    ShortenedIs(i, q, PR.Exec(i, ls));
  }

  /** The same state for readers that start anew. */
  function Anew(s: PR.State): PR.State { s.(claims := [], takers := [], freed := [], pushers := []) }

  /** When all calls have returned, the messages not taken are a queue from which readers start again. */
  lemma QueueAgain(i: PR.State, q: seq<nat>, stream: bool, ls: seq<PR.Label>)
    requires PR.Queue(i, q, stream) && PR.LegalRun(i, ls) && Returned(PR.Exec(i, ls))
    ensures var s := PR.Exec(i, ls);
            |s.takers| <= |q| && PR.Queue(Anew(s), q[|s.takers|..], stream && |s.takers| < |q|)
  {
    hide PR.Exec, PR.LegalRun, PR.Queue, Settled, Shortened, PR.StreamLen, Returned;
    Settles(i, q, stream, ls);
    var s := PR.Exec(i, ls);
    if stream { StreamLeft(i, q, ls); }
    RestQueue(i, q, stream, s, if stream then PR.StreamLen(q, true, s.claims) else 0);
  }

  lemma RestQueue(i: PR.State, q: seq<nat>, stream: bool, s: PR.State, n: nat)
    requires PR.Queue(i, q, stream) && Settled(i, q, stream, s) && Returned(s)
    requires stream ==> Shortened(i, s, q[|q| - 1], |s.takers|, |q|, n)
    ensures |s.takers| <= |q| && PR.Queue(Anew(s), q[|s.takers|..], stream && |s.takers| < |q|)
  {
    hide PR.Queue, PR.AtOr, PR.PrevFree, Shortened, PR.Distinct, Settled;
    SettledPlaces(i, q, stream, s);
    var (t, q') := (|s.takers|, q[|s.takers|..]);
    QueueFacts(i, q, stream);
    SettledEnds(i, q, stream, s);
    RestLinks(i, q, stream, s);
    RestPlaces(i, q, stream, s, n);
    FreeOutside(i, q, stream, s);
    DistinctRest(q, t);
    assert forall k :: 0 <= k < |q'| ==> q'[k] == q[t + k];
    MakeQueue(Anew(s), q', stream && t < |q|);
  }

  lemma FreeOutside(i: PR.State, q: seq<nat>, stream: bool, s: PR.State)
    requires PR.Distinct(q) && Settled(i, q, stream, s) && (i.free.Some? ==> i.free.v !in q)
    ensures |s.takers| <= |q| && (s.free.Some? ==> s.free.v !in q[|s.takers|..])
  {
    NotFreed(i, q, stream, s);
    DistinctRest(q, |s.takers|);
    hide PR.Distinct, PR.AtOr, PR.IsStream;
  }

  lemma QueueFacts(i: PR.State, q: seq<nat>, stream: bool)
    requires PR.Queue(i, q, stream)
    ensures PR.Distinct(q) && (stream ==> q != []) && i.size > 0 && (i.free.Some? ==> i.free.v !in q)
    ensures i.tail == (if q == [] then None else Some(q[|q| - 1])) && |i.next| == |i.start| == |i.end|
    ensures forall k {:trigger q[k]} :: 0 <= k < |q| ==> q[k] < |i.next|
  {}

  lemma MakeQueue(i: PR.State, q: seq<nat>, stream: bool)
    requires i.size > 0 && |i.next| == |i.start| == |i.end| && PR.Distinct(q) && (stream ==> q != [])
    requires forall k :: 0 <= k < |q| ==> q[k] < |i.next| && i.start[q[k]] < i.size && i.end[q[k]] < i.size
    requires i.head == PR.AtOr(q, 0) && i.tail == (if q == [] then None else Some(q[|q| - 1]))
             && (i.free.Some? ==> i.free.v !in q)
    requires forall k {:trigger i.next[q[k]]} :: 0 <= k < |q| ==>
             i.next[q[k]] == if stream && k == |q| - 1 then Some(q[k]) else PR.AtOr(q, k + 1)
    requires i.claims == [] && i.takers == [] && i.freed == [] && i.pushers == [] && Returned(i)
    ensures PR.Queue(i, q, stream)
  {
    hide PR.AtOr, PR.Distinct;
  }

  lemma DistinctRest(q: seq<nat>, t: nat)
    requires PR.Distinct(q) && t <= |q|
    ensures PR.Distinct(q[t..]) && forall m :: m in q[..t] ==> m !in q[t..]
  {}

  lemma RestPlaces(i: PR.State, q: seq<nat>, stream: bool, s: PR.State, n: nat)
    requires PR.Queue(i, q, stream) && Settled(i, q, stream, s)
    requires stream ==> Shortened(i, s, q[|q| - 1], |s.takers|, |q|, n)
    ensures forall k {:trigger q[k]} :: |s.takers| <= k < |q| ==>
            q[k] < |s.start| == |s.end| && s.start[q[k]] < s.size && s.end[q[k]] < s.size
  {
    hide PR.AtOr, PR.PrevFree, Idx, PR.Whole, PR.Distinct;
    forall k | |s.takers| <= k < |q|
      ensures q[k] < |s.start| == |s.end| && s.start[q[k]] < s.size && s.end[q[k]] < s.size
    {
      assert i.start[q[k]] < i.size && i.end[q[k]] < i.size;
    }
  }

  lemma RestLinks(i: PR.State, q: seq<nat>, stream: bool, s: PR.State)
    requires PR.Queue(i, q, stream) && |s.takers| <= |q| && |s.next| == |i.next|
    requires forall k {:trigger q[k]} :: |s.takers| <= k < |q| ==> q[k] < |i.next| && s.next[q[k]] == i.next[q[k]]
    ensures var q' := q[|s.takers|..];
            && PR.AtOr(q', 0) == PR.AtOr(q, |s.takers|)
            && forall k {:trigger s.next[q'[k]]} :: 0 <= k < |q'| ==>
                 q'[k] < |s.next| && s.next[q'[k]] == if stream && |s.takers| < |q| && k == |q'| - 1 then Some(q'[k])
                     else PR.AtOr(q', k + 1)
  {
    hide PR.Distinct;
    var (t, q') := (|s.takers|, q[|s.takers|..]);
    forall k | 0 <= k < |q'|
      ensures q'[k] < |s.next|
              && s.next[q'[k]] == if stream && t < |q| && k == |q'| - 1 then Some(q'[k]) else PR.AtOr(q', k + 1)
    {
      assert q'[k] == q[t + k] && PR.AtOr(q', k + 1) == PR.AtOr(q, t + k + 1);
      assert i.next[q[t + k]] == if stream && t + k == |q| - 1 then Some(q[t + k]) else PR.AtOr(q, t + k + 1);
    }
  }

  lemma NotFreed(i: PR.State, q: seq<nat>, stream: bool, s: PR.State)
    requires PR.Distinct(q) && Settled(i, q, stream, s)
    ensures forall k :: |s.takers| <= k < |q| ==> q[k] !in s.freed
    ensures s.free.Some? ==> s.free == i.free || s.free.v in q[..|s.takers|]
  {
    hide PR.AtOr, PR.IsStream;
    forall k | |s.takers| <= k < |q|
      ensures q[k] !in s.freed
    {
      assert forall j :: 0 <= j < |s.takers| ==> q[..|s.takers|][j] == q[j];
    }
    if |s.freed| > 0 { assert s.freed[|s.freed| - 1] in s.freed; }
  }

  // ----- the pipe again -----

  ghost function Members(q: seq<nat>): set<nat> { set x | x in q }

  lemma {:induction false} DistinctCard(q: seq<nat>)
    requires PR.Distinct(q)
    ensures |Members(q)| == |q|
  {
    if q != [] {
      var (n, before) := (|q| - 1, q[..|q| - 1]);
      DistinctCard(before);
      assert q == before + [q[n]];
      assert Members(q) == Members(before) + {q[n]} && q[n] !in Members(before);
    }
  }

  lemma SameLength(a: seq<nat>, b: seq<nat>)
    requires PR.Distinct(a) && PR.Distinct(b) && forall m :: m in a <==> m in b
    ensures |a| == |b|
  {
    DistinctCard(a);
    DistinctCard(b);
    assert Members(a) == Members(b);
  }

  /** The messages as the readers leave them. */
  function Kept(s: PR.State): (msgs: seq<PN.Msg>)
    requires |s.next| == |s.start| == |s.end|
    ensures |msgs| == |s.next|
  {
    seq(|s.next|, m requires 0 <= m < |s.next| => PN.Msg(s.next[m], s.start[m], s.end[m]))
  }

  function Back(q: seq<nat>): (r: seq<nat>)
    ensures |r| == |q|
  {
    seq(|q|, k requires 0 <= k < |q| => q[|q| - 1 - k])
  }

  lemma FreeLink(i: PR.State, freed: seq<nat>, idle: seq<nat>, k: nat)
    requires i.free == PR.AtOr(idle, 0) && k < |freed| + |idle|
    ensures var (f, list) := (|freed|, Back(freed) + idle);
            && (k < f ==> list[k] == freed[f - 1 - k] && PR.AtOr(list, k + 1) == PR.PrevFree(i, freed, f - 1 - k))
            && (k >= f ==> list[k] == idle[k - f] && PR.AtOr(list, k + 1) == PR.AtOr(idle, k - f + 1))
  {}

  /** Freed messages lie on the free list in front of those there before, the last one first. */
  lemma FreeAgain(i: PR.State, freed: seq<nat>, msgs: seq<PN.Msg>, kept: seq<PN.Msg>, idle: seq<nat>)
    requires PN.Chain(msgs, idle, false) && i.free == PR.AtOr(idle, 0) && |msgs| == |kept|
    requires forall k {:trigger idle[k]} :: 0 <= k < |idle| ==>
             idle[k] < |msgs| && kept[idle[k]].next == msgs[idle[k]].next
    requires forall k {:trigger freed[k]} :: 0 <= k < |freed| ==>
             freed[k] < |kept| && kept[freed[k]].next == PR.PrevFree(i, freed, k)
    ensures PN.Chain(kept, Back(freed) + idle, false)
            && PR.PrevFree(i, freed, |freed|) == PR.AtOr(Back(freed) + idle, 0)
  {
    var (f, list) := (|freed|, Back(freed) + idle);
    assert PR.PrevFree(i, freed, f) == PR.AtOr(list, 0);
    hide PR.AtOr, PR.PrevFree, Back;
    forall k | 0 <= k < |list|
      ensures list[k] < |kept| && kept[list[k]].next == PR.AtOr(list, k + 1)
    {
      FreeLink(i, freed, idle, k);
      if k >= f { assert msgs[idle[k - f]].next == PR.AtOr(idle, k - f + 1); }
    }
  }

  lemma SplitAgain(count: nat, q: seq<nat>, idle: seq<nat>, freed: seq<nat>, t: nat)
    requires PN.Split(count, q, idle) && t <= |q| && PR.Distinct(freed) && forall m :: m in freed <==> m in q[..t]
    ensures PN.Split(count, q[t..], Back(freed) + idle) && forall k :: 0 <= k < |idle| ==> idle[k] !in freed
  {
    SameLength(freed, q[..t]);
    var list := Back(freed) + idle;
    forall m | m in freed
      ensures m !in idle && m in q && m !in q[t..]
    {
      assert m in q[..t];
    }
    assert forall k :: 0 <= k < |freed| ==> Back(freed)[k] in freed;
    forall k, l | 0 <= k < l < |list|
      ensures list[k] != list[l]
    {
      if k < |freed| && l >= |freed| { assert list[k] in freed && list[l] == idle[l - |freed|]; }
    }
    forall k | 0 <= k < |list|
      ensures list[k] < count
    {
      if k < |freed| { assert list[k] in q; }
    }
    assert forall m :: m in list ==> m in freed || m in idle;
  }

  lemma KeptIs(s: PR.State)
    requires |s.next| == |s.start| == |s.end|
    ensures forall m :: 0 <= m < |s.next| ==> Kept(s)[m] == PN.Msg(s.next[m], s.start[m], s.end[m])
  {}

  lemma ChainRest(msgs: seq<PN.Msg>, kept: seq<PN.Msg>, q: seq<nat>, t: nat, stream: bool)
    requires PN.Chain(msgs, q, stream) && t <= |q| && |kept| == |msgs|
    requires forall k {:trigger q[k]} :: t <= k < |q| ==> q[k] < |msgs| && kept[q[k]].next == msgs[q[k]].next
    ensures PN.Chain(kept, q[t..], stream && t < |q|) && PR.AtOr(q[t..], 0) == PR.AtOr(q, t)
  {
    var q' := q[t..];
    forall k | 0 <= k < |q'|
      ensures q'[k] < |kept|
              && kept[q'[k]].next == if stream && t < |q| && k == |q'| - 1 then Some(q'[k]) else PR.AtOr(q', k + 1)
    {
      assert q'[k] == q[t + k] && PR.AtOr(q', k + 1) == PR.AtOr(q, t + k + 1);
      assert msgs[q[t + k]].next == if stream && t + k == |q| - 1 then Some(q[t + k]) else PR.AtOr(q, t + k + 1);
    }
  }

  lemma KeptLinks(i: PR.State, q: seq<nat>, stream: bool, s: PR.State, msgs: seq<PN.Msg>)
    requires PR.Distinct(q) && Settled(i, q, stream, s) && |i.next| == |msgs|
    requires forall k :: 0 <= k < |q| ==> q[k] < |msgs|
    requires forall m :: 0 <= m < |msgs| ==> i.next[m] == msgs[m].next
    ensures forall k {:trigger q[k]} :: |s.takers| <= k < |q| ==> q[k] < |msgs| && Kept(s)[q[k]].next == msgs[q[k]].next
  {
    hide PR.AtOr, PR.PrevFree, PR.IsStream, Kept;
    NotFreed(i, q, stream, s);
    KeptIs(s);
    hide PR.Distinct;
  }

  /** The links, the queue and the free list are those of a pipe with the messages that are left. */
  lemma LinkedAgain(i: PR.State, msgs: seq<PN.Msg>, q: seq<nat>, idle: seq<nat>, stream: bool, s: PR.State)
    requires PN.Linked(msgs, i.head, i.tail, i.free, q, idle, stream) && Settled(i, q, stream, s) && |i.next| == |msgs|
    requires forall m :: 0 <= m < |msgs| ==> i.next[m] == msgs[m].next
    ensures |s.takers| <= |q| && |s.next| == |s.start| == |s.end|
    ensures PN.Linked(Kept(s), s.head, s.tail, s.free, q[|s.takers|..], Back(s.freed) + idle,
            stream && |s.takers| < |q|)
  {
    hide PN.Chain, PR.AtOr, PR.PrevFree, PR.IsStream, Kept, Back;
    var t := |s.takers|;
    SplitAgain(|msgs|, q, idle, s.freed, t);
    KeptLinks(i, q, stream, s, msgs);
    ChainRest(msgs, Kept(s), q, t, stream);
    KeptIs(s);
    FreeAgain(i, s.freed, msgs, Kept(s), idle);
    assert t < |q| ==> q[t..][|q| - t - 1] == q[|q| - 1];
    hide PN.Split;
  }

  /** The items when the first `t` are taken, and of a stream message then first `n` bytes. */
  function Left<B>(items: seq<PQ.Item<B>>, t: nat, n: nat): seq<PQ.Item<B>>
    requires t <= |items|
  {
    if t + 1 == |items| && !items[t].packet && n <= |items[t].bytes| then [items[t].(bytes := items[t].bytes[n..])]
        else items[t..]
  }

  lemma {:induction false} AllPopped<B>(buf: seq<B>, msgs: seq<PN.Msg>, q: seq<nat>, items: seq<PQ.Item<B>>, t: nat)
    requires PN.Laid(buf, msgs, q, items) && PR.Distinct(q) && t <= |q| == |items|
    ensures PN.Laid(buf, msgs, q[t..], items[t..])
    decreases t
  {
    hide PN.Laid;
    if t > 0 {
      PN.PopLaid(buf, msgs, msgs, q, items);
      DistinctRest(q, 1);
      AllPopped(buf, msgs, q[1..], items[1..], t - 1);
      assert q[1..][t - 1..] == q[t..] && items[1..][t - 1..] == items[t..];
    } else {
      assert q[0..] == q && items[0..] == items;
    }
  }

  /** Only starts and ends say where the bytes are. */
  lemma LaidSame<B>(buf: seq<B>, msgs: seq<PN.Msg>, msgs': seq<PN.Msg>, q: seq<nat>, items: seq<PQ.Item<B>>)
    requires PN.Laid(buf, msgs, q, items) && |msgs'| == |msgs|
    requires forall k {:trigger q[k]} :: 0 <= k < |q| ==>
             q[k] < |msgs| && msgs'[q[k]].start == msgs[q[k]].start && msgs'[q[k]].end == msgs[q[k]].end
    ensures PN.Laid(buf, msgs', q, items)
  {
    hide Read, Idx, PQ.Flat, PN.Off;
    forall k | 0 <= k < |q|
      ensures PN.PlacedAt(|buf|, PN.Base(msgs, q), msgs', q[k], items, k)
    {
      assert PN.PlacedAt(|buf|, PN.Base(msgs, q), msgs, q[k], items, k);
    }
  }

  /** The bytes that are left lie where the messages that are left say. */
  lemma LaidAgain<B>(buf: seq<B>, msgs: seq<PN.Msg>, kept: seq<PN.Msg>, q: seq<nat>, a: PQ.Queue<B>, t: nat, n: nat)
    requires PN.Laid(buf, msgs, q, a.items) && PR.Distinct(q) && t <= |q| == |a.items| && PQ.Formed(|buf|, a)
             && |kept| == |msgs|
    requires forall k {:trigger q[k]} :: t <= k < |q| ==> q[k] < |msgs| && kept[q[k]].end == msgs[q[k]].end
    requires forall k {:trigger q[k]} :: t <= k < |q| && (a.items[k].packet || k > t) ==>
             kept[q[k]].start == msgs[q[k]].start
    requires t < |q| && !a.items[t].packet ==>
             n < |a.items[t].bytes| && kept[q[t]].start == Idx(|buf|, msgs[q[t]].start + n)
    ensures PN.Laid(buf, kept, q[t..], Left(a.items, t, n))
  {
    hide PN.Laid, Idx, PR.Distinct;
    AllPopped(buf, msgs, q, a.items, t);
    var (q', items') := (q[t..], a.items[t..]);
    assert forall k :: 0 <= k < |q'| ==> q'[k] == q[t + k];
    if t < |q| && !a.items[t].packet {
      assert t + 1 == |q|;
      var (m, it) := (q[t], a.items[t]);
      assert q' == [m] && items' == [it];
      WithinRing(buf, a, t);
      PN.ShortLaid(buf, msgs, m, it, n);
      LaidSame(buf, msgs[m := msgs[m].(start := Idx(|buf|, msgs[m].start + n))], kept, [m], Left(a.items, t, n));
    } else {
      LaidSame(buf, msgs, kept, q', items');
      assert Left(a.items, t, n) == items';
    }
  }

  lemma WithinRing<B>(buf: seq<B>, a: PQ.Queue<B>, k: nat)
    requires PQ.Formed(|buf|, a) && k < |a.items|
    ensures |a.items[k].bytes| <= |buf|
  {
    PN.FlatAt(a.items, k);
    hide PQ.Flat;
  }

  lemma {:induction false} FlatSplit<B>(items: seq<PQ.Item<B>>, t: nat)
    requires t <= |items|
    ensures PQ.Flat(items) == PQ.Flat(items[..t]) + PQ.Flat(items[t..])
  {
    hide PQ.Flat;
    if t == |items| {
      assert items[..t] == items && items[t..] == [];
      PN.FlatNone<B>();
    } else {
      var (n, before) := (|items| - 1, items[..|items| - 1]);
      FlatSplit(before, t);
      assert before[..t] == items[..t] && items[t..] == before[t..] + [items[n]] && items == before + [items[n]];
      PQ.FlatAppend(before[t..], items[n]);
      PQ.FlatAppend(before, items[n]);
    }
  }

  /** Nothing is lost: the messages taken, the bytes taken of the stream message, and what is left. */
  lemma LeftConserves<B>(size: nat, a: PQ.Queue<B>, t: nat, n: nat)
    requires PQ.Formed(size, a) && t <= |a.items| && (t < |a.items| && !a.items[t].packet ==> n < |a.items[t].bytes|)
    ensures Accounted(a.items, t, n)
    ensures PQ.Formed(size, a.(items := Left(a.items, t, n)))
  {
    hide PQ.Flat;
    FlatSplit(a.items, t);
    if t < |a.items| && !a.items[t].packet {
      var it := a.items[t];
      assert t + 1 == |a.items| && a.items[t..] == [it];
      PN.FlatOne(it);
      PN.FlatOne(it.(bytes := it.bytes[n..]));
      assert it.bytes == it.bytes[..n] + it.bytes[n..];
    }
  }

  /** Links, bytes and messages make up a pipe that holds the queue `a`; it is what writers and readers
      start from. */
  ghost predicate Pipe<B>(buf: seq<B>, msgs: seq<PN.Msg>, head: PN.Opt, tail: PN.Opt, free: PN.Opt, q: seq<nat>,
                          idle: seq<nat>, a: PQ.Queue<B>) {
    PN.Linked(msgs, head, tail, free, q, idle, PQ.Extends(a.items)) && PN.Laid(buf, msgs, q, a.items)
        && PQ.Formed(|buf|, a)
  }

  /** The account of one phase: which items are left, and that nothing is lost. */
  ghost predicate Accounted<B>(items: seq<PQ.Item<B>>, t: nat, n: nat)
    requires t <= |items|
  {
    var streaming := t < |items| && !items[t].packet;
    && (streaming ==> n < |items[t].bytes|)
    && PQ.Flat(items) == PQ.Flat(items[..t]) + (if streaming then items[t].bytes[..n] else [])
         + PQ.Flat(Left(items, t, n))
  }

  /** For every pipe, every number of readers and every run of theirs in which all calls have returned: the
      pipe is one again that holds the items left, from which the next write, read or phase of readers goes
      on, and what was taken is the first messages and the first bytes of the stream message. */
  lemma PhaseLeavesPipe<B>(buf: seq<B>, msgs: seq<PN.Msg>, head: PN.Opt, tail: PN.Opt, free: PN.Opt, q: seq<nat>,
                           idle: seq<nat>, a: PQ.Queue<B>, readers: nat, ls: seq<PR.Label>)
    requires Pipe(buf, msgs, head, tail, free, q, idle, a)
    requires var i := PN.Idle(|buf|, msgs, head, tail, free, readers); PR.LegalRun(i, ls) && Returned(PR.Exec(i, ls))
    ensures var s := PR.Exec(PN.Idle(|buf|, msgs, head, tail, free, readers), ls);
            var (t, n) := (|s.takers|, PR.StreamLen(q, PQ.Extends(a.items), s.claims));
            && t <= |q| == |a.items| && |s.next| == |s.start| == |s.end|
            && Pipe(buf, Kept(s), s.head, s.tail, s.free, q[t..], Back(s.freed) + idle,
                 a.(items := Left(a.items, t, n)))
            && Accounted(a.items, t, n)
  {
    hide PN.Linked, PN.Laid, PN.Idle, PR.Exec, PR.LegalRun, PR.Queue, PR.StreamLen, PR.Distinct, PN.Chain, Settled,
         Shortened, Returned, Kept, Back;
    hide PQ.Flat, PQ.Formed, Accounted;
    var (i, stream) := (PN.Idle(|buf|, msgs, head, tail, free, readers), PQ.Extends(a.items));
    var s := PR.Exec(i, ls);
    var (t, n) := (|s.takers|, PR.StreamLen(q, stream, s.claims));
    PN.LeavesQueue(buf, msgs, head, tail, free, q, idle, a, readers);
    PN.IdleIs(|buf|, msgs, head, tail, free, readers);
    PN.Ends(buf, msgs, head, tail, free, q, idle, a.items);
    PN.LinkFacts(msgs, head, tail, free, q, idle, stream);
    Settles(i, q, stream, ls);
    LinkedAgain(i, msgs, q, idle, stream, s);
    if stream { StreamLeft(i, q, ls); }
    PlacesLeft(buf, msgs, q, a, i, s, n);
    LaidAgain(buf, msgs, Kept(s), q, a, t, n);
    LeftConserves(|buf|, a, t, n);
    LeftExtends(a.items, t, n);
  }

  lemma LeftExtends<B>(items: seq<PQ.Item<B>>, t: nat, n: nat)
    requires t <= |items|
    ensures PQ.Extends(Left(items, t, n)) <==> PQ.Extends(items) && t < |items|
  {
    assert t < |items| ==> items[t..][|items| - t - 1] == items[|items| - 1];
  }

  /** Starts and ends of the messages left. */
  lemma PlacesLeft<B>(buf: seq<B>, msgs: seq<PN.Msg>, q: seq<nat>, a: PQ.Queue<B>, i: PR.State, s: PR.State, n: nat)
    requires PN.Laid(buf, msgs, q, a.items) && PQ.Formed(|buf|, a) && |q| == |a.items| && i.size == |buf|
             && |i.next| == |msgs|
    requires forall m :: 0 <= m < |msgs| ==>
             m < |i.start| == |i.end| && i.start[m] == msgs[m].start && i.end[m] == msgs[m].end
    requires PR.Distinct(q) && Settled(i, q, PQ.Extends(a.items), s)
             && (PQ.Extends(a.items) ==> Shortened(i, s, q[|q| - 1], |s.takers|, |q|, n))
    ensures |Kept(s)| == |msgs|
    ensures forall k {:trigger q[k]} :: |s.takers| <= k < |q| ==> q[k] < |msgs| && Kept(s)[q[k]].end == msgs[q[k]].end
    ensures forall k {:trigger q[k]} :: |s.takers| <= k < |q| && (a.items[k].packet || k > |s.takers|) ==>
            Kept(s)[q[k]].start == msgs[q[k]].start
    ensures var t := |s.takers|; t < |q| && !a.items[t].packet ==>
            n < |a.items[t].bytes| && Kept(s)[q[t]].start == Idx(|buf|, msgs[q[t]].start + n)
  {
    hide PN.Laid, Settled, Kept, PQ.Flat, PR.Distinct, Idx;
    SettledPlaces(i, q, PQ.Extends(a.items), s);
    KeptIs(s);
    PN.InBounds(buf, msgs, q, a.items);
    var t := |s.takers|;
    if t < |q| && !a.items[t].packet {
      assert t + 1 == |q|;
      PN.ClaimedBytes(buf, msgs, q, a, t, 0);
    }
    forall k | t <= k < |q| && (a.items[k].packet || k > t)
      ensures Kept(s)[q[k]].start == msgs[q[k]].start
    {
      if PR.IsStream(q, PQ.Extends(a.items), q[k]) {
        LastOnly(q, k);
        IdxWrap(|buf|, msgs[q[k]].start);
      }
    }
  }

  lemma LastOnly(q: seq<nat>, k: nat)
    requires PR.Distinct(q) && k < |q| && q[k] == q[|q| - 1]
    ensures k == |q| - 1
  {}

  lemma SettledEnds(i: PR.State, q: seq<nat>, stream: bool, s: PR.State)
    requires Settled(i, q, stream, s) && PR.Distinct(q) && forall k {:trigger q[k]} :: 0 <= k < |q| ==> q[k] < |i.next|
    ensures |s.takers| <= |q| && |s.next| == |i.next| && s.head == PR.AtOr(q, |s.takers|)
            && s.tail == (if |s.takers| == |q| then None else i.tail)
    ensures forall k {:trigger q[k]} :: |s.takers| <= k < |q| ==> q[k] < |i.next| && s.next[q[k]] == i.next[q[k]]
  {
    NotFreed(i, q, stream, s);
    hide PR.Distinct, PR.AtOr, PR.PrevFree, PR.IsStream;
  }

  lemma SettledPlaces(i: PR.State, q: seq<nat>, stream: bool, s: PR.State)
    requires Settled(i, q, stream, s)
    ensures |s.takers| <= |q| && s.size == i.size && s.end == i.end
            && |s.next| == |i.next| == |s.start| == |i.start| == |s.end|
    ensures forall m :: 0 <= m < |i.start| && !PR.IsStream(q, stream, m) ==> s.start[m] == i.start[m]
  {
    hide PR.Distinct, PR.AtOr, PR.PrevFree, PR.IsStream;
  }
}
