/** Descriptor tables: entries that pack a file and its close-on-exec flag into one word, slots that
    share files, and the reference counts that keep account of both. */
module Fdtab {

  // ----- entries -----

  /** A pointer whose two low bits, free by alignment, hold the flags. */
  function Encode(p: bv64, flags: bv64): bv64 { p | flags }

  function Pointer(e: bv64): bv64 { e & 0xFFFF_FFFF_FFFF_FFFC }

  function Flags(e: bv64): bv64 { e & 3 }

  lemma DecodeEncode(p: bv64, flags: bv64)
    requires p & 3 == 0 && flags & 0xFFFF_FFFF_FFFF_FFFC == 0
    ensures Pointer(Encode(p, flags)) == p && Flags(Encode(p, flags)) == flags
  {}

  // ----- tables -----

  /** An open file is where it lies in memory. */
  datatype Address = Address(p: bv64)

  predicate Aligned(a: Address) { a.p & 3 == 0 && a.p != 0 }

  type File = a: Address | Aligned(a) witness Address(4)

  datatype Slot = Free | Open(file: File, cloexec: bool)

  type Table = seq<Slot>

  /** The word of a slot; null is a free one. */
  function EncodeSlot(s: Slot): bv64 {
    match s
    case Free => 0
    case Open(file, cloexec) => Encode(file.p, if cloexec then 1 else 0)
  }

  predicate IsEntry(e: bv64) { e == 0 || Pointer(e) != 0 }

  lemma PointerIs(e: bv64)
    ensures Pointer(e) & 3 == 0
  {}

  function DecodeSlot(e: bv64): Slot
    requires IsEntry(e)
  {
    PointerIs(e);
    if e == 0 then Free else Open(Address(Pointer(e)), Flags(e) & 1 == 1)
  }

  /** Every slot is read back as it was stored. */
  lemma SlotStored(s: Slot)
    ensures IsEntry(EncodeSlot(s)) && DecodeSlot(EncodeSlot(s)) == s && (EncodeSlot(s) == 0 <==> s.Free?)
  {
    match s
    case Free =>
    case Open(file, cloexec) => DecodeEncode(file.p, if cloexec then 1 else 0); OneBit(cloexec);
  }

  /** The lowest bit of the word is the close-on-exec flag, the others are the file. */
  lemma EntryWord(file: File, cloexec: bool)
    ensures var e := EncodeSlot(Open(file, cloexec));
            (e & 1 == 1 <==> cloexec) && e & 0xFFFF_FFFF_FFFF_FFFE == file.p
  {
    LowBit(file.p, if cloexec then 1 else 0);
  }

  lemma LowBit(p: bv64, f: bv64)
    requires p & 3 == 0 && (f == 0 || f == 1)
    ensures (p | f) & 1 == f && (p | f) & 0xFFFF_FFFF_FFFF_FFFE == p
  {}

  lemma OneBit(b: bool)
    ensures var f: bv64 := if b then 1 else 0; f & 0xFFFF_FFFF_FFFF_FFFC == 0 && (f & 1 == 1 <==> b)
  {}

  function EncodeTable(t: Table): (es: seq<bv64>)
    ensures |es| == |t|
  {
    seq(|t|, i requires 0 <= i < |t| => EncodeSlot(t[i]))
  }

  function EncodeAll(ts: seq<Table>): (ws: seq<seq<bv64>>)
    ensures |ws| == |ts| && forall k :: 0 <= k < |ts| ==> |ws[k]| == |ts[k]|
  {
    seq(|ts|, k requires 0 <= k < |ts| => EncodeTable(ts[k]))
  }

  lemma EncodeChange(ts: seq<Table>, k: nat, i: nat, s: Slot)
    requires k < |ts| && i < |ts[k]|
    ensures EncodeAll(Change(ts, k, i, s)) == EncodeAll(ts)[k := EncodeAll(ts)[k][i := EncodeSlot(s)]]
  {
    hide EncodeSlot;
    assert EncodeTable(ts[k][i := s]) == EncodeTable(ts[k])[i := EncodeSlot(s)];
  }

  lemma EncodeAppend(ts: seq<Table>, n: nat)
    ensures EncodeAll(ts + [Empty(n)]) == EncodeAll(ts) + [seq(n, _ => 0)]
  {
    assert EncodeTable(Empty(n)) == seq(n, _ => 0);
  }

  datatype Error = BadFd | BadArg | TableFull | NoMemory

  /** The one flag bit that callers may set. */
  const O_CLOEXEC: nat := 0x8_0000

  predicate GoodFlags(flags: nat) { flags == 0 || flags == O_CLOEXEC }

  datatype Result = Ok(fd: nat) | Err(error: Error)

  function Holds(s: Slot, f: File): nat { if s.Open? && s.file == f then 1 else 0 }

  /** In how many slots of a table the file is. */
  function Uses(t: Table, f: File): nat { if t == [] then 0 else Uses(t[..|t| - 1], f) + Holds(t[|t| - 1], f) }

  function AllUses(ts: seq<Table>, f: File): nat {
    if ts == [] then 0 else AllUses(ts[..|ts| - 1], f) + Uses(ts[|ts| - 1], f)
  }

  lemma {:induction false} UsesSet(t: Table, i: nat, s: Slot, f: File)
    requires i < |t|
    ensures Uses(t[i := s], f) + Holds(t[i], f) == Uses(t, f) + Holds(s, f)
  {
    var (n, t') := (|t| - 1, t[i := s]);
    if i < n {
      assert t'[..n] == t[..n][i := s];
      UsesSet(t[..n], i, s, f);
    } else {
      assert t'[..n] == t[..n];
    }
  }

  lemma {:induction false} AllUsesSet(ts: seq<Table>, k: nat, t: Table, f: File)
    requires k < |ts|
    ensures AllUses(ts[k := t], f) + Uses(ts[k], f) == AllUses(ts, f) + Uses(t, f)
  {
    var (n, ts') := (|ts| - 1, ts[k := t]);
    if k < n {
      assert ts'[..n] == ts[..n][k := t];
      AllUsesSet(ts[..n], k, t, f);
    } else {
      assert ts'[..n] == ts[..n];
    }
    hide Uses;
  }

  /** Changing one slot changes the uses by what it held and what it holds. */
  lemma SlotSet(ts: seq<Table>, k: nat, i: nat, s: Slot, f: File)
    requires k < |ts| && i < |ts[k]|
    ensures AllUses(ts[k := ts[k][i := s]], f) + Holds(ts[k][i], f) == AllUses(ts, f) + Holds(s, f)
  {
    UsesSet(ts[k], i, s, f);
    AllUsesSet(ts, k, ts[k][i := s], f);
  }

  /** A file is in no slot of a table. */
  ghost predicate Absent(t: Table, f: File) {
    forall i :: 0 <= i < |t| ==> t[i] != Open(f, true) && t[i] != Open(f, false)
  }

  /** A count of zero means the file is in no slot. */
  lemma {:induction false} UsesZero(t: Table, f: File)
    ensures Uses(t, f) == 0 <==> Absent(t, f)
  {
    if t != [] {
      var n := |t| - 1;
      UsesZero(t[..n], f);
      assert forall i :: 0 <= i < n ==> t[..n][i] == t[i];
    }
  }

  /** The same for all tables. */
  lemma {:induction false} AllUsesZero(ts: seq<Table>, f: File)
    ensures AllUses(ts, f) == 0 <==> forall k :: 0 <= k < |ts| ==> Uses(ts[k], f) == 0
  {
    hide Uses;
    if ts != [] {
      var n := |ts| - 1;
      AllUsesZero(ts[..n], f);
      assert forall k :: 0 <= k < n ==> ts[..n][k] == ts[k];
    }
  }

  lemma {:induction false} NoUses(n: nat, f: File)
    ensures Uses(Empty(n), f) == 0
  {
    if n > 0 {
      assert Empty(n)[..n - 1] == Empty(n - 1);
      NoUses(n - 1, f);
    }
  }

  function Empty(n: nat): (t: Table)
    ensures |t| == n
  {
    seq(n, _ => Free)
  }

  lemma AllUsesAppend(ts: seq<Table>, t: Table, f: File)
    ensures AllUses(ts + [t], f) == AllUses(ts, f) + Uses(t, f)
  {
    assert (ts + [t])[..|ts|] == ts;
  }

  /** The lowest free slot at or above `min`, or the size of the table. */
  ghost predicate LowestFree(t: Table, min: int, fd: nat) {
    && fd <= |t| && (forall i :: 0 <= i < fd && i >= min ==> t[i].Open?)
    && (fd < |t| ==> min <= fd && t[fd].Free?)
  }

  method FindFree(es: seq<bv64>, min: int, ghost t: Table) returns (fd: nat)
    requires es == EncodeTable(t)
    ensures min >= 0 ==> LowestFree(t, min, fd)
    ensures min < 0 ==> fd == |t|
  {
    hide EncodeSlot;
    if min < 0 || min >= |es| { return |es|; }
    fd := min;
    while fd < |es| && es[fd] != 0
      invariant min <= fd <= |t| && forall i :: min <= i < fd ==> t[i].Open?
    {
      SlotStored(t[fd]);
      fd := fd + 1;
    }
    if fd < |t| { SlotStored(t[fd]); }
  }

  /** The table with the slots taken out that are to be closed: all, or those flagged. */
  function Cleaned(t: Table, all: bool): (r: Table)
    ensures |r| == |t|
  {
    seq(|t|, i requires 0 <= i < |t| => if t[i].Open? && (all || t[i].cloexec) then Free else t[i])
  }

  // ----- the account -----

  function RefsOf(refs: map<File, nat>, f: File): nat { if f in refs then refs[f] else 0 }

  /** The reference a slot stands for. */
  function Bag(s: Slot): multiset<File> { if s.Open? then multiset{s.file} else multiset{} }

  /** The count of every file is the number of slots it is in and of references handed out. */
  ghost predicate Balanced(refs: map<File, nat>, ts: seq<Table>, handed: multiset<File>) {
    forall f: File :: RefsOf(refs, f) == AllUses(ts, f) + handed[f]
  }

  /** In a balanced account a count is zero exactly when no slot of any table has the file and no caller
      has a reference: no open descriptor is without its file, and no file outlives its last reference. */
  lemma CountZero(refs: map<File, nat>, ts: seq<Table>, handed: multiset<File>, f: File)
    requires Balanced(refs, ts, handed)
    ensures RefsOf(refs, f) == 0 <==> handed[f] == 0 && forall k :: 0 <= k < |ts| ==> Absent(ts[k], f)
  {
    AllUsesZero(ts, f);
    forall k | 0 <= k < |ts|
      ensures Uses(ts[k], f) == 0 <==> Absent(ts[k], f)
    {
      UsesZero(ts[k], f);
    }
    hide Uses, AllUses, Absent;
  }

  lemma BalancedGet(refs: map<File, nat>, ts: seq<Table>, handed: multiset<File>, f: File)
    requires Balanced(refs, ts, handed)
    ensures Balanced(refs[f := RefsOf(refs, f) + 1], ts, handed + multiset{f})
  {
    hide AllUses;
    var (refs', handed') := (refs[f := RefsOf(refs, f) + 1], handed + multiset{f});
    forall g: File ensures RefsOf(refs', g) == AllUses(ts, g) + handed'[g] {
      assert RefsOf(refs, g) == AllUses(ts, g) + handed[g];
    }
  }

  lemma BalancedGive(refs: map<File, nat>, ts: seq<Table>, handed: multiset<File>, f: File)
    requires Balanced(refs, ts, handed) && handed[f] > 0
    ensures RefsOf(refs, f) > 0 && Balanced(refs[f := RefsOf(refs, f) - 1], ts, handed - multiset{f})
  {
    hide AllUses;
    assert RefsOf(refs, f) == AllUses(ts, f) + handed[f];
    var (refs', handed') := (refs[f := RefsOf(refs, f) - 1], handed - multiset{f});
    forall g: File ensures RefsOf(refs', g) == AllUses(ts, g) + handed'[g] {
      assert RefsOf(refs, g) == AllUses(ts, g) + handed[g];
    }
  }

  lemma BalancedExchange(refs: map<File, nat>, ts: seq<Table>, handed: multiset<File>, k: nat, i: nat, s: Slot)
    requires Balanced(refs, ts, handed) && k < |ts| && i < |ts[k]| && Bag(s) <= handed
    ensures Balanced(refs, ts[k := ts[k][i := s]], handed - Bag(s) + Bag(ts[k][i]))
  {
    hide AllUses;
    var (ts', handed') := (ts[k := ts[k][i := s]], handed - Bag(s) + Bag(ts[k][i]));
    forall g: File ensures RefsOf(refs, g) == AllUses(ts', g) + handed'[g] {
      assert RefsOf(refs, g) == AllUses(ts, g) + handed[g];
      SlotSet(ts, k, i, s, g);
      assert Bag(s)[g] == Holds(s, g) && Bag(ts[k][i])[g] == Holds(ts[k][i], g);
      assert handed'[g] == handed[g] - Bag(s)[g] + Bag(ts[k][i])[g];
    }
  }

  lemma BalancedTable(refs: map<File, nat>, ts: seq<Table>, handed: multiset<File>, n: nat)
    requires Balanced(refs, ts, handed)
    ensures Balanced(refs, ts + [Empty(n)], handed)
  {
    hide AllUses, Uses;
    forall g: File ensures RefsOf(refs, g) == AllUses(ts + [Empty(n)], g) + handed[g] {
      assert RefsOf(refs, g) == AllUses(ts, g) + handed[g];
      AllUsesAppend(ts, Empty(n), g);
      NoUses(n, g);
    }
  }

  lemma BalancedStart(n: nat)
    ensures Balanced(map[], [Empty(n)], multiset{})
  {
    forall g: File ensures AllUses([], g) == 0 {}
    BalancedTable(map[], [], multiset{}, n);
    assert [] + [Empty(n)] == [Empty(n)];
  }

  /** A table changed in one slot. */
  function Change(ts: seq<Table>, k: nat, i: nat, s: Slot): seq<Table>
    requires k < |ts| && i < |ts[k]|
  {
    ts[k := ts[k][i := s]]
  }

  class Files {
    const size: nat
    /** The tables as stored, one word a slot. */
    var words: seq<seq<bv64>>
    ghost var tabs: seq<Table>
    var refs: map<File, nat>
    /** References handed out to callers and not given back yet. */
    ghost var handed: multiset<File>

    ghost predicate Valid()
      reads this
    {
      (forall k :: 0 <= k < |tabs| ==> |tabs[k]| == size) && words == EncodeAll(tabs) && Balanced(refs, tabs, handed)
    }

    /** One empty table. */
    constructor (size: nat)
      ensures Valid() && this.size == size && tabs == [Empty(size)] && handed == multiset{}
    {
      this.size := size;
      words := [seq(size, _ => 0)];
      tabs, refs, handed := [Empty(size)], map[], multiset{};
      new;
      EncodeAppend([], size);
      assert [] + [Empty(size)] == [Empty(size)];
      assert EncodeAll([]) + [seq(size, _ => 0)] == [seq(size, _ => 0)];
      BalancedStart(size);
    }

    /** A new reference, handed to the caller. */
    method Acquire(f: File)
      requires Valid()
      modifies `refs, `handed
      ensures Valid() && handed == old(handed) + multiset{f}
    {
      hide Balanced, EncodeAll, Aligned;
      BalancedGet(refs, tabs, handed, f);
      refs := refs[f := RefsOf(refs, f) + 1];
      handed := handed + multiset{f};
    }

    /** Giving back a reference; the count is never below what is given back. */
    method Release(f: File)
      requires Valid() && handed[f] > 0
      modifies `refs, `handed
      ensures Valid() && handed == old(handed) - multiset{f}
    {
      hide Balanced, EncodeAll, Aligned;
      BalancedGive(refs, tabs, handed, f);
      refs := refs[f := RefsOf(refs, f) - 1];
      handed := handed - multiset{f};
    }

    /** The slot as decoded from its word. */
    method Slot(k: nat, i: nat) returns (s: Slot)
      requires Valid() && k < |tabs| && i < size
      ensures s == tabs[k][i]
    {
      hide Balanced, DecodeSlot, EncodeSlot, IsEntry;
      SlotStored(tabs[k][i]);
      s := DecodeSlot(words[k][i]);
    }

    /** A new entry in a slot, for a reference the caller holds; the caller gets that of the old entry. */
    method Exchange(k: nat, i: nat, s: Slot) returns (prev: Slot)
      requires Valid() && k < |tabs| && i < size && Bag(s) <= handed
      modifies `words, `tabs, `handed
      ensures Valid() && prev == old(tabs)[k][i] && tabs == Change(old(tabs), k, i, s)
              && handed == old(handed) - Bag(s) + Bag(prev)
    {
      hide Balanced, EncodeAll, EncodeSlot;
      BalancedExchange(refs, tabs, handed, k, i, s);
      EncodeChange(tabs, k, i, s);
      prev := Slot(k, i);
      words := words[k := words[k][i := EncodeSlot(s)]];
      tabs := Change(tabs, k, i, s);
      handed := handed - Bag(s) + Bag(prev);
    }

    /** The file whose reference the caller holds placed into the lowest free slot at or above `min`. */
    method Put(k: nat, f: File, cloexec: bool, min: int) returns (fd: nat)
      requires Valid() && k < |tabs| && handed[f] > 0
      modifies `words, `tabs, `handed
      ensures Valid() && fd <= size && (min >= 0 ==> LowestFree(old(tabs)[k], min, fd)) && (min < 0 ==> fd == size)
      ensures fd == size ==> tabs == old(tabs) && handed == old(handed)
      ensures fd < size ==> tabs == Change(old(tabs), k, fd, Open(f, cloexec)) && handed == old(handed) - multiset{f}
    {
      hide Balanced, Aligned, EncodeSlot;
      fd := FindFree(words[k], min, tabs[k]);
      if fd < size {
        var prev := Exchange(k, fd, Open(f, cloexec));
      }
    }

    /** A new file, with one reference, put into the table; without a free slot it is released again.
        `memory` says whether it could be made. */
    method OpenNew(k: nat, f: File, cloexec: bool, memory: bool) returns (r: Result)
      requires Valid() && k < |tabs| && RefsOf(refs, f) == 0
      modifies `words, `tabs, `refs, `handed
      ensures Valid() && handed == old(handed)
      ensures match r
              case Ok(fd) => && memory && fd < size && LowestFree(old(tabs)[k], 0, fd)
                             && tabs == Change(old(tabs), k, fd, Open(f, cloexec))
              case Err(e) => && tabs == old(tabs)
                             && if !memory then e == NoMemory
                                else && e == TableFull
                                     && forall i :: 0 <= i < size ==> tabs[k][i].Open?
    {
      hide Balanced, EncodeAll, Aligned, EncodeSlot, Bag, RefsOf;
      if !memory { return Err(NoMemory); }
      Acquire(f);
      var fd := Put(k, f, cloexec, 0);
      if fd >= size {
        Release(f);
        return Err(TableFull);
      }
      r := Ok(fd);
    }

    /** A reference to the file behind a descriptor, for the caller to give back. */
    method Get(k: nat, fd: int) returns (s: Slot)
      requires Valid() && k < |tabs|
      modifies `refs, `handed
      ensures Valid() && s == (if 0 <= fd < size then tabs[k][fd] else Free) && handed == old(handed) + Bag(s)
    {
      hide Balanced, EncodeAll, Aligned;
      s := Free;
      if 0 <= fd < size {
        s := Slot(k, fd);
        if s.Open? { Acquire(s.file); }
      }
    }

    method Close(k: nat, fd: int) returns (r: Result)
      requires Valid() && k < |tabs|
      modifies `words, `tabs, `refs, `handed
      ensures Valid() && handed == old(handed)
      ensures match r
              case Ok(_) => 0 <= fd < size && old(tabs)[k][fd].Open? && tabs == Change(old(tabs), k, fd, Free)
              case Err(e) => e == BadFd && tabs == old(tabs) && (0 <= fd < size ==> tabs[k][fd].Free?)
    {
      hide Balanced, EncodeAll, Aligned;
      if !(0 <= fd < size) { return Err(BadFd); }
      var s := Slot(k, fd);
      if s.Free? { return Err(BadFd); }
      s := Exchange(k, fd, Free);
      Release(s.file);
      r := Ok(0);
    }

    /** A slot made to hold the file whose reference the caller gives; that of the old file is released. */
    method Replace(k: nat, i: nat, f: File, cloexec: bool)
      requires Valid() && k < |tabs| && i < size && handed[f] > 0
      modifies `words, `tabs, `refs, `handed
      ensures Valid() && handed == old(handed) - multiset{f} && tabs == Change(old(tabs), k, i, Open(f, cloexec))
    {
      hide Balanced, EncodeAll, Aligned;
      var prev := Exchange(k, i, Open(f, cloexec));
      if prev.Open? {
        Release(prev.file);
        assert handed == (old(handed) - multiset{f} + multiset{prev.file}) - multiset{prev.file};
      }
    }

    /** `newfd` made to refer to the file of `oldfd`; the file it referred to before loses a reference. */
    method Dup3(k: nat, oldfd: int, newfd: int, flags: nat) returns (r: Result)
      requires Valid() && k < |tabs|
      modifies `words, `tabs, `refs, `handed
      ensures Valid() && handed == old(handed)
      ensures r == if oldfd == newfd then Err(BadArg)
                   else if !(0 <= oldfd < size) || !(0 <= newfd < size) then Err(BadFd)
                   else if flags !in {0, 0x8_0000} then Err(BadArg)
                   else if old(tabs)[k][oldfd].Free? then Err(BadFd)
                   else Ok(newfd)
      ensures tabs == if r.Ok? then Change(old(tabs), k, newfd, Open(old(tabs)[k][oldfd].file, flags == 0x8_0000))
              else old(tabs)
    {
      hide Balanced, EncodeAll, Aligned;
      if oldfd == newfd { return Err(BadArg); }
      if !(0 <= oldfd < size) || !(0 <= newfd < size) { return Err(BadFd); }
      if !GoodFlags(flags) { return Err(BadArg); }
      var s := Get(k, oldfd);
      if s.Free? { return Err(BadFd); }
      Replace(k, newfd, s.file, flags != 0);
      r := Ok(newfd);
    }

    method Dup2(k: nat, oldfd: int, newfd: int) returns (r: Result)
      requires Valid() && k < |tabs|
      modifies `words, `tabs, `refs, `handed
      ensures Valid() && handed == old(handed)
      ensures r.Ok? <==> 0 <= oldfd < size && 0 <= newfd < size && old(tabs)[k][oldfd].Open?
      ensures r.Ok? ==> r.fd == newfd
      ensures r.Ok? ==> tabs == if oldfd == newfd then old(tabs)
                                else Change(old(tabs), k, newfd, Open(old(tabs)[k][oldfd].file, false))
      ensures r.Err? ==> r.error == BadFd && tabs == old(tabs)
    {
      hide Balanced, EncodeAll, Aligned;
      if oldfd == newfd {
        if !(0 <= oldfd < size) { return Err(BadFd); }
        var s := Slot(k, oldfd);
        r := if s.Open? then Ok(newfd) else Err(BadFd);
      } else {
        r := Dup3(k, oldfd, newfd, 0);
      }
    }

    /** Another descriptor, the lowest free one from `min` on, for the file of `oldfd`. */
    method DupMin(k: nat, oldfd: int, min: int, flags: nat) returns (r: Result)
      requires Valid() && k < |tabs|
      modifies `words, `tabs, `refs, `handed
      ensures Valid() && handed == old(handed)
      ensures match r
              case Ok(fd) => && flags in {0, 0x8_0000} && 0 <= oldfd < size && old(tabs)[k][oldfd].Open?
                             && fd < size && LowestFree(old(tabs)[k], min, fd)
                             && tabs == Change(old(tabs), k, fd, Open(old(tabs)[k][oldfd].file, flags == 0x8_0000))
              case Err(e) => && tabs == old(tabs)
                             && if oldfd < 0 then e == BadFd
                                else if flags !in {0, 0x8_0000} then e == BadArg
                                else if oldfd < size && tabs[k][oldfd].Open?
                                then e == TableFull && (min < 0 || forall i :: min <= i < size ==> tabs[k][i].Open?)
                                else e == BadFd
    {
      hide Balanced, EncodeAll, Aligned;
      if oldfd < 0 { return Err(BadFd); }
      if !GoodFlags(flags) { return Err(BadArg); }
      var s := Get(k, oldfd);
      if s.Free? { return Err(BadFd); }
      var fd := Put(k, s.file, flags != 0, min);
      if fd >= size {
        Release(s.file);
        return Err(TableFull);
      }
      r := Ok(fd);
    }

    /** The flag of a descriptor changed; the file stays where it is and keeps its count. */
    method SetFlags(k: nat, fd: int, flags: nat) returns (r: Result)
      requires Valid() && k < |tabs|
      modifies `words, `tabs, `handed
      ensures Valid() && handed == old(handed) && refs == old(refs)
      ensures r == if flags !in {0, 0x8_0000} then Err(BadArg)
                   else if 0 <= fd < size && old(tabs)[k][fd].Open? then Ok(0) else Err(BadFd)
      ensures tabs == if r.Ok? then Change(old(tabs), k, fd, Open(old(tabs)[k][fd].file, flags == 0x8_0000))
              else old(tabs)
    {
      hide Balanced, EncodeAll, Aligned;
      if !GoodFlags(flags) { return Err(BadArg); }
      if !(0 <= fd < size) { return Err(BadFd); }
      var s := Slot(k, fd);
      if s.Free? { return Err(BadFd); }
      s := Exchange(k, fd, Free);
      ChangeTwice(old(tabs), k, fd, Free, Open(s.file, flags != 0));
      var none := Exchange(k, fd, Open(s.file, flags != 0));
      r := Ok(0);
    }

    /** Closing all descriptors of a table, or exactly those flagged close-on-exec. */
    method Cleanup(k: nat, all: bool)
      requires Valid() && k < |tabs|
      modifies `words, `tabs, `refs, `handed
      ensures Valid() && handed == old(handed) && tabs == old(tabs)[k := Cleaned(old(tabs)[k], all)]
      ensures forall i :: 0 <= i < size ==>
                var (was, now) := (old(tabs)[k][i], tabs[k][i]);
                (now.Free? <==> was.Free? || all || was.cloexec) && (now.Open? ==> now == was)
    {
      hide Balanced, Partly, Change, EncodeAll, Aligned;
      ghost var (ts, t) := (tabs, tabs[k]);
      PartlyNone(t, Cleaned(t, all));
      for i := 0 to size
        invariant Valid() && handed == old(handed) && tabs == ts[k := Partly(t, Cleaned(t, all), i)]
      {
        PartlyNext(t, Cleaned(t, all), i);
        ChangeIn(ts, k, Partly(t, Cleaned(t, all), i), i, Free);
        var s := Slot(k, i);
        if s.Open? && (all || s.cloexec) {
          var r := Close(k, i);
        }
      }
      PartlyAll(t, Cleaned(t, all));
    }

    /** A second table with the same entries, each with a reference of its own; None without memory for it. */
    method Duplicate(k: nat, memory: bool) returns (r: Result)
      requires Valid() && k < |tabs|
      modifies `words, `tabs, `refs, `handed
      ensures Valid() && handed == old(handed) && r == (if memory then Ok(old(|tabs|)) else Err(NoMemory))
      ensures tabs == if memory then old(tabs) + [old(tabs)[k]] else old(tabs)
    {
      hide Balanced, EncodeAll, Aligned;
      if !memory { return Err(NoMemory); }
      var n := |words|;
      BalancedTable(refs, tabs, handed, size);
      EncodeAppend(tabs, size);
      words := words + [seq(size, _ => 0)];
      tabs := tabs + [Empty(size)];
      CopyInto(k, n, old(tabs));
      r := Ok(n);
    }

    /** The entries of table `k` copied to the new table behind the tables `ts`. */
    method CopyInto(k: nat, n: nat, ghost ts: seq<Table>)
      requires Valid() && k < |ts| == n && tabs == ts + [Empty(size)]
      modifies `words, `tabs, `refs, `handed
      ensures Valid() && handed == old(handed) && tabs == ts + [ts[k]]
    {
      hide Balanced, Partly, Change, EncodeAll, Aligned;
      ghost var t := tabs[k];
      PartlyNone(Empty(size), t);
      for i := 0 to size
        invariant Valid() && handed == old(handed) && tabs == ts + [Partly(Empty(size), t, i)]
      {
        PartlyNext(Empty(size), t, i);
        var s := Get(k, i);
        if s.Open? {
          ChangeLast(ts, Partly(Empty(size), t, i), i, s);
          var none := Exchange(n, i, s);
        }
      }
      PartlyAll(Empty(size), t);
    }
  }

  lemma ChangeTwice(ts: seq<Table>, k: nat, i: nat, s: Slot, s': Slot)
    requires k < |ts| && i < |ts[k]|
    ensures Change(Change(ts, k, i, s), k, i, s') == Change(ts, k, i, s')
  {
    assert ts[k][i := s][i := s'] == ts[k][i := s'];
  }

  lemma ChangeIn(ts: seq<Table>, k: nat, t: Table, i: nat, s: Slot)
    requires k < |ts| && i < |t|
    ensures Change(ts[k := t], k, i, s) == ts[k := t[i := s]]
  {}

  lemma ChangeLast(ts: seq<Table>, t: Table, i: nat, s: Slot)
    requires i < |t|
    ensures Change(ts + [t], |ts|, i, s) == ts + [t[i := s]]
  {}

  /** The first `i` slots as in `b`, the others as in `a`. */
  function Partly(a: Table, b: Table, i: nat): (r: Table)
    requires i <= |a| == |b|
    ensures |r| == |a|
  {
    b[..i] + a[i..]
  }

  lemma PartlyNone(a: Table, b: Table)
    requires |a| == |b|
    ensures Partly(a, b, 0) == a
  {}

  lemma PartlyNext(a: Table, b: Table, i: nat)
    requires i < |a| == |b|
    ensures Partly(a, b, i)[i] == a[i] && Partly(a, b, i + 1) == Partly(a, b, i)[i := b[i]]
    ensures a[i] == b[i] ==> Partly(a, b, i + 1) == Partly(a, b, i)
  {}

  lemma PartlyAll(a: Table, b: Table)
    requires |a| == |b|
    ensures Partly(a, b, |a|) == b
  {}
}
