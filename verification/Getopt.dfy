/** Option scanning with permutation, one option a call. A whole run of calls returns what a plain
    scan of the untouched words returns, and leaves the words as a stable partition. */
module Getopt {
  import opened Basics
  import opened Permute

  datatype HasArg = NoArg | Required | Optional

  /** A long option; `flag` names the variable to set, if any. */
  datatype Long = Long(name: string, has: HasArg, flag: Option<nat>, val: int)

  /** What one call returns: the option, its argument and the index of a long option. */
  datatype Reply = Reply(ret: int, arg: Option<string>, idx: Option<nat>)

  /** One option scanned: by how many words the index moves on and what is left of the last word. */
  datatype Elem = Elem(reply: Reply, used: nat, rest: string)

  const BADCH: int := '?' as int

  function BadArg(options: string): int {
    if options != "" && options[0] == ':' then ':' as int else BADCH
  }

  function Find(s: string, c: char): Option<nat> {
    if s == "" then None
    else if s[0] == c then Some(0)
    else match Find(s[1..], c) case None => None case Some(k) => Some(k + 1)
  }

  lemma {:induction false} FindIs(s: string, c: char)
    ensures match Find(s, c)
            case None => c !in s
            case Some(k) => k < |s| && s[k] == c && c !in s[..k]
  {
    if s != "" && s[0] != c {
      FindIs(s[1..], c);
      assert s == [s[0]] + s[1..];
      if Find(s[1..], c).Some? {
        var k := Find(s[1..], c).v;
        assert s[..k + 1] == [s[0]] + s[1..][..k];
      }
    }
  }

  // ----- long options -----

  predicate Exact(longs: seq<Long>, name: string, i: nat) { i < |longs| && longs[i].name == name }

  predicate Partial(longs: seq<Long>, name: string, i: nat) {
    i < |longs| && name <= longs[i].name && name != longs[i].name
  }

  predicate Alike(a: Long, b: Long) { a.has == b.has && a.flag == b.flag && a.val == b.val }

  /** No option, more than one that matters, or the one meant. */
  datatype Match = Unknown | Ambiguous | Found(i: nat)

  /** The meaning of a name: an exact match, the first one, wins; else the first option it is a prefix
      of, unless another such option differs in more than its name. */
  ghost predicate Means(longs: seq<Long>, name: string, m: Match) {
    match m
    case Unknown => forall i: nat :: !Exact(longs, name, i) && !Partial(longs, name, i)
    case Ambiguous =>
      && (forall i: nat :: !Exact(longs, name, i))
      && exists i: nat, j: nat :: Partial(longs, name, i) && Partial(longs, name, j)
                && longs[i].(name := "") != longs[j].(name := "")
    case Found(k) =>
      || (Exact(longs, name, k) && forall i: nat :: i < k ==> !Exact(longs, name, i))
      || (&& Partial(longs, name, k) && (forall i: nat :: !Exact(longs, name, i))
          && (forall i: nat :: i < k ==> !Partial(longs, name, i))
          && (forall i: nat :: Partial(longs, name, i) ==> longs[i].(name := "") == longs[k].(name := "")))
  }

  /** The search as the scanner makes it, from option `i` on: `first` is the first partial match so far. */
  function Search(longs: seq<Long>, name: string, i: nat, first: Option<nat>, second: bool): Match
    requires i <= |longs| && (first.Some? ==> first.v < |longs|)
    decreases |longs| - i
  {
    if i == |longs| then
      if second then Ambiguous else if first.None? then Unknown else Found(first.v)
    else if !(name <= longs[i].name) then Search(longs, name, i + 1, first, second)
    else if |longs[i].name| == |name| then Found(i)
    else if first.None? then Search(longs, name, i + 1, Some(i), second)
    else Search(longs, name, i + 1, first, second || !Alike(longs[i], longs[first.v]))
  }

  /** What the search knows after the options before `i`. */
  ghost predicate Searched(longs: seq<Long>, name: string, i: nat, first: Option<nat>, second: bool)
    requires i <= |longs|
  {
    && (forall k: nat :: k < i ==> !Exact(longs, name, k))
    && (first.None? ==> !second && forall k: nat :: k < i ==> !Partial(longs, name, k))
    && (first.Some? ==>
          && first.v < i && Partial(longs, name, first.v) && (forall k: nat :: k < first.v ==> !Partial(longs, name, k))
          && (second <==> exists k: nat :: k < i && Partial(longs, name, k) && !Alike(longs[k], longs[first.v])))
  }

  lemma {:induction false} SearchMeans(longs: seq<Long>, name: string, i: nat, first: Option<nat>, second: bool)
    requires i <= |longs| && (first.Some? ==> first.v < |longs|) && Searched(longs, name, i, first, second)
    ensures Means(longs, name, Search(longs, name, i, first, second))
    decreases |longs| - i
  {
    if i == |longs| {
      assert forall k: nat :: !Exact(longs, name, k);
    } else if !(name <= longs[i].name) {
      SearchMeans(longs, name, i + 1, first, second);
    } else if |longs[i].name| == |name| {
      assert Exact(longs, name, i);
    } else if first.None? {
      assert Partial(longs, name, i);
      SearchMeans(longs, name, i + 1, Some(i), second);
    } else {
      assert Partial(longs, name, i);
      SearchMeans(longs, name, i + 1, first, second || !Alike(longs[i], longs[first.v]));
    }
  }

  /** Only one meaning fits. */
  lemma MeansOne(longs: seq<Long>, name: string, m: Match, m': Match)
    requires Means(longs, name, m) && Means(longs, name, m')
    ensures m == m'
  {}

  /** The search loop. */
  method FindLong(longs: seq<Long>, name: string) returns (m: Match)
    ensures Means(longs, name, m) && m == Search(longs, name, 0, None, false)
  {
    SearchMeans(longs, name, 0, None, false);
    var first: Option<nat>, second := None, false;
    for i := 0 to |longs|
      invariant first.Some? ==> first.v < |longs|
      invariant Search(longs, name, i, first, second) == Search(longs, name, 0, None, false)
    {
      if name <= longs[i].name {
        if |longs[i].name| == |name| { return Found(i); }
        if first.None? {
          first := Some(i);
        } else if !Alike(longs[i], longs[first.v]) {
          second := true;
        }
      }
    }
    m := if second then Ambiguous else if first.None? then Unknown else Found(first.v);
  }

  /** The long option named by `place` up to a '=', with the words after the current one in `next`. */
  function ParseLong(options: string, longs: seq<Long>, place: string, next: seq<string>): Elem {
    var eq := Find(place, '=');
    var name := if eq.Some? && eq.v < |place| then place[..eq.v] else place;
    match Search(longs, name, 0, None, false)
    case Unknown => Elem(Reply(BADCH, None, None), 1, "")
    case Ambiguous => Elem(Reply(BADCH, None, None), 1, "")
    case Found(i) =>
      if i >= |longs| then Elem(Reply(BADCH, None, None), 1, "")
      else
        var ret := if longs[i].flag.Some? then 0 else longs[i].val;
        if eq.Some? && eq.v < |place| then
          if longs[i].has.NoArg? then Elem(Reply(BADCH, None, None), 1, "")
          else Elem(Reply(ret, Some(place[eq.v + 1..]), Some(i)), 1, "")
        else if !longs[i].has.Required? then Elem(Reply(ret, None, Some(i)), 1, "")
        else if next == [] then Elem(Reply(BadArg(options), None, None), 1, "")
        else Elem(Reply(ret, Some(next[0]), Some(i)), 2, "")
  }

  function CharAt(s: string, k: nat): char { if k < |s| then s[k] else '\0' }

  /** The option letter at the start of `place`; `next` are the words after the current one. */
  function ParseShort(options: string, longs: seq<Long>, place: string, next: seq<string>): Elem
    requires place != ""
  {
    var (c, rest, at) := (place[0], place[1..], Find(options, place[0]));
    var here := if rest == "" then 1 else 0;
    if c == ':' || at.None? then Elem(Reply(BADCH, None, None), here, rest)
    else if c == 'W' && CharAt(options, at.v + 1) == ';' then
      if rest != "" then ParseLong(options, longs, rest, next)
      else if next == [] then Elem(Reply(BadArg(options), None, None), 1, "")
      else var e := ParseLong(options, longs, next[0], next[1..]); e.(used := e.used + 1)
    else if CharAt(options, at.v + 1) != ':' then Elem(Reply(c as int, None, None), here, rest)
    else if rest != "" then Elem(Reply(c as int, Some(rest), None), 1, "")
    else if CharAt(options, at.v + 2) == ':' then Elem(Reply(c as int, None, None), 1, "")
    else if next == [] then Elem(Reply(BadArg(options), None, None), 1, "")
    else Elem(Reply(c as int, Some(next[0]), None), 2, "")
  }

  /** One option, of which `place` is left in the current word. */
  function ParseOne(options: string, longs: seq<Long>, place: string, next: seq<string>): Elem
    requires place != ""
  {
    if place[0] == '-' then ParseLong(options, longs, place[1..], next) else ParseShort(options, longs, place, next)
  }

  /** Every call makes progress, stays within the words, and -1 is kept for the end. */
  lemma ParseOneUsed(options: string, longs: seq<Long>, place: string, next: seq<string>)
    requires place != "" && forall i :: 0 <= i < |longs| ==> longs[i].val != -1
    ensures var e := ParseOne(options, longs, place, next);
            && e.used <= 1 + |next| && (e.used == 0 <==> e.rest != "") && (e.used == 0 ==> |e.rest| < |place|)
            && e.reply.ret != -1
  {}

  // ----- the plain scan of untouched words -----

  /** What to do with a non-option: pass over it, return it as the argument of an option 1, or stop. */
  datatype Mode = Permute | InOrder | Stop

  function ModeOf(options: string): Mode {
    if CharAt(options, 0) == '-' then InOrder else if CharAt(options, 0) == '+' then Stop else Permute
  }

  /** The option string without the character that sets the mode. */
  function Letters(options: string): string { if ModeOf(options).Permute? then options else options[1..] }

  function Plain(w: string): Reply { Reply(1, Some(w), None) }

  /** A word that is not an option: it does not start with '-' or is just "-". */
  predicate NonOption(w: string) { w == "" || w[0] != '-' || |w| == 1 }

  /** All replies of a run; the words that are options, option arguments or "--"; the words that are
      not; and the words behind the end of the options. */
  datatype Parsed = Parsed(replies: seq<Reply>, opts: seq<string>, nons: seq<string>, rest: seq<string>)

  predicate Sane(longs: seq<Long>) { forall i :: 0 <= i < |longs| ==> longs[i].val != -1 }

  function Add(r: seq<Reply>, o: seq<string>, n: seq<string>, p: Parsed): Parsed {
    Parsed(r + p.replies, o + p.opts, n + p.nons, p.rest)
  }

  /** How many characters of the current word are left to scan. */
  function Left(s: seq<string>, i: nat, place: string): nat {
    if place != "" then |place| else if i < |s| then |s[i]| + 1 else 0
  }

  /** The scan from word `i` on, with `place` left of that word. */
  ghost function Scan(options: string, longs: seq<Long>, s: seq<string>, i: nat, place: string): Parsed
    requires Sane(longs) && i <= |s| && (place != "" ==> i < |s|)
    decreases |s| - i, Left(s, i, place), 1
  {
    if place != "" then ScanOne(options, longs, s, i, place)
    else if i == |s| then Parsed([], [], [], [])
    else if NonOption(s[i]) then
      match ModeOf(options)
      case Permute => Add([], [], [s[i]], Scan(options, longs, s, i + 1, ""))
      case InOrder => Add([Plain(s[i])], s[i..i + 1], [], Scan(options, longs, s, i + 1, ""))
      case Stop => Parsed([], [], [], s[i..])
    else if s[i] == "--" then Parsed([], ["--"], [], s[i + 1..])
    else ScanOne(options, longs, s, i, s[i][1..])
  }

  ghost function ScanOne(options: string, longs: seq<Long>, s: seq<string>, i: nat, place: string): Parsed
    requires Sane(longs) && i < |s| && place != ""
    decreases |s| - i, |place|, 0
  {
    var e := ParseOne(Letters(options), longs, place, s[i + 1..]);
    ParseOneUsed(Letters(options), longs, place, s[i + 1..]);
    Add([e.reply], s[i..i + e.used], [], Scan(options, longs, s, i + e.used, e.rest))
  }

  // ----- where the words are during a run -----

  /** The words so far: `opts` are the option words in the order seen, `nons` the others; `k` of the
      option words lie in front of the others. */
  datatype Trace = Trace(s: seq<string>, i0: nat, replies: seq<Reply>, opts: seq<string>, nons: seq<string>, k: nat)

  ghost predicate Placed(t: Trace, argv: seq<string>, optind: nat) {
    && t.i0 + |t.opts| + |t.nons| == optind <= |t.s| == |argv| && t.k <= |t.opts|
    && argv == t.s[..t.i0] + (t.opts[..t.k] + t.nons + t.opts[t.k..]) + t.s[optind..]
  }

  /** The scanner's two marks say where the non-options lie. */
  ghost predicate Marked(t: Trace, place: string, start: int, end: int) {
    && t.k <= |t.opts|
    && (start < 0 ==> start == -1 && end == -1 && t.nons == [] && t.k == 0)
    && (start >= 0 ==> start == t.i0 + t.k && t.nons != [])
    && (start >= 0 && end < 0 ==> end == -1 && t.k == |t.opts| && place == "")
    && (end >= 0 ==> start >= 0 && end == start + |t.nons| && (place == "" ==> t.k < |t.opts|))
  }

  /** What has been seen and what is left make up the plain scan. */
  ghost predicate Agrees(options: string, longs: seq<Long>, t: Trace, optind: nat, place: string)
    requires Sane(longs)
  {
    && t.i0 <= optind <= |t.s| && (place != "" ==> optind < |t.s|) && (!ModeOf(options).Permute? ==> t.nons == [])
    && Scan(options, longs, t.s, t.i0, "") == Add(t.replies, t.opts, t.nons, Scan(options, longs, t.s, optind, place))
  }

  lemma ExchangedBlocks(a: seq<string>, b: seq<string>, c: seq<string>, d: seq<string>, e: seq<string>)
    ensures var (i, j, k) := (|a| + |b|, |a| + |b| + |c|, |a| + |b| + |c| + |d|);
            Exchanged(a + (b + c + d) + e, i, j, k) == a + (b + d + c) + e
  {
    var (s, i, j, k) := (a + (b + c + d) + e, |a| + |b|, |a| + |b| + |c|, |a| + |b| + |c| + |d|);
    assert s[..i] == a + b;
    assert s[i..j] == c;
    assert s[j..k] == d;
    assert s[k..] == e;
    assert a + b + d + c + e == a + (b + d + c) + e;
  }

  /** Bringing the non-options behind all option words seen. */
  lemma Gathered(t: Trace, argv: seq<string>, optind: nat, start: nat, end: nat)
    requires Placed(t, argv, optind) && start == t.i0 + t.k && end == start + |t.nons|
    ensures Placed(t.(k := |t.opts|), Exchanged(argv, start, end, optind), optind)
  {
    hide Exchanged;
    var (front, back) := (t.opts[..t.k], t.opts[t.k..]);
    ExchangedBlocks(t.s[..t.i0], front, t.nons, back, t.s[optind..]);
    assert t.opts[..|t.opts|] == t.opts == front + back && t.opts[|t.opts|..] == [];
    assert front + back + t.nons == t.opts + t.nons + [];
  }

  /** With no non-options there is nothing to lie between the option words. */
  lemma NoNons(t: Trace, argv: seq<string>, optind: nat, k: nat)
    requires Placed(t, argv, optind) && t.nons == [] && k <= |t.opts|
    ensures Placed(t.(k := k), argv, optind)
  {
    assert t.opts[..k] + [] + t.opts[k..] == t.opts == t.opts[..t.k] + [] + t.opts[t.k..];
  }

  lemma SkippedNon(t: Trace, argv: seq<string>, optind: nat)
    requires Placed(t, argv, optind) && optind < |t.s| && t.k == |t.opts|
    ensures argv[optind] == t.s[optind] && Placed(t.(nons := t.nons + [t.s[optind]]), argv, optind + 1)
  {
    var w := t.s[optind];
    assert t.s[optind..] == [w] + t.s[optind + 1..];
    assert t.opts[..t.k] + (t.nons + [w]) + t.opts[t.k..] == (t.opts[..t.k] + t.nons + t.opts[t.k..]) + [w];
  }

  lemma TookOpts(t: Trace, argv: seq<string>, optind: nat, n: nat, r: seq<Reply>)
    requires Placed(t, argv, optind) && optind + n <= |t.s|
    ensures Placed(t.(opts := t.opts + t.s[optind..optind + n], replies := r), argv, optind + n)
  {
    var ws := t.s[optind..optind + n];
    var opts := t.opts + ws;
    assert t.s[optind..] == ws + t.s[optind + n..];
    assert opts[..t.k] == t.opts[..t.k] && opts[t.k..] == t.opts[t.k..] + ws;
    assert t.opts[..t.k] + t.nons + (t.opts[t.k..] + ws) == (t.opts[..t.k] + t.nons + t.opts[t.k..]) + ws;
  }

  /** Words from the scanner's index on are untouched. */
  lemma Untouched(t: Trace, argv: seq<string>, optind: nat)
    requires Placed(t, argv, optind)
    ensures |t.s| == |argv| && t.i0 + |t.opts| + |t.nons| == optind <= |argv| && t.k <= |t.opts|
    ensures argv[optind..] == t.s[optind..]
            && (optind < |argv| ==> argv[optind] == t.s[optind] && argv[optind + 1..] == t.s[optind + 1..])
  {}

  lemma AgreesNon(options: string, longs: seq<Long>, t: Trace, optind: nat)
    requires Sane(longs) && Agrees(options, longs, t, optind, "") && optind < |t.s| && NonOption(t.s[optind])
             && ModeOf(options).Permute?
    ensures Agrees(options, longs, t.(nons := t.nons + [t.s[optind]]), optind + 1, "")
  {
    var p := Scan(options, longs, t.s, optind + 1, "");
    assert t.nons + ([t.s[optind]] + p.nons) == (t.nons + [t.s[optind]]) + p.nons;
    assert t.replies + ([] + p.replies) == t.replies + p.replies && t.opts + ([] + p.opts) == t.opts + p.opts;
  }

  lemma AgreesPlain(options: string, longs: seq<Long>, t: Trace, optind: nat)
    requires Sane(longs) && Agrees(options, longs, t, optind, "") && optind < |t.s| && NonOption(t.s[optind])
             && ModeOf(options).InOrder?
    ensures Agrees(options, longs,
            t.(opts := t.opts + t.s[optind..optind + 1], replies := t.replies + [Plain(t.s[optind])]), optind + 1, "")
  {
    var (ws, r) := (t.s[optind..optind + 1], Plain(t.s[optind]));
    var p := Scan(options, longs, t.s, optind + 1, "");
    assert Scan(options, longs, t.s, optind, "") == Add([r], ws, [], p);
    hide Scan;
    assert t.opts + (ws + p.opts) == (t.opts + ws) + p.opts;
    assert t.replies + ([r] + p.replies) == (t.replies + [r]) + p.replies;
  }

  /** A word taken up as an option. */
  lemma AgreesWord(options: string, longs: seq<Long>, t: Trace, optind: nat)
    requires Sane(longs) && Agrees(options, longs, t, optind, "") && optind < |t.s| && !NonOption(t.s[optind])
             && t.s[optind] != "--"
    ensures Agrees(options, longs, t, optind, t.s[optind][1..])
  {}

  lemma ScanAt(options: string, longs: seq<Long>, s: seq<string>, i: nat, place: string)
    requires Sane(longs) && i < |s| && place != ""
    ensures var e := ParseOne(Letters(options), longs, place, s[i + 1..]);
            && i + e.used <= |s| && (e.rest != "" ==> i + e.used < |s|)
            && Scan(options, longs, s, i, place)
                 == Add([e.reply], s[i..i + e.used], [], Scan(options, longs, s, i + e.used, e.rest))
  {
    hide ParseOne, Add;
    ParseOneUsed(Letters(options), longs, place, s[i + 1..]);
  }

  lemma AgreesOne(options: string, longs: seq<Long>, t: Trace, optind: nat, place: string)
    requires Sane(longs) && Agrees(options, longs, t, optind, place) && place != ""
    ensures var e := ParseOne(Letters(options), longs, place, t.s[optind + 1..]);
            && optind + e.used <= |t.s|
            && Agrees(options, longs,
                 t.(opts := t.opts + t.s[optind..optind + e.used], replies := t.replies + [e.reply]), optind + e.used,
                     e.rest)
  {
    hide ParseOne, Scan, Letters, ModeOf;
    var e := ParseOne(Letters(options), longs, place, t.s[optind + 1..]);
    ScanAt(options, longs, t.s, optind, place);
    var (i, ws) := (optind + e.used, t.s[optind..optind + e.used]);
    var p := Scan(options, longs, t.s, i, e.rest);
    assert t.opts + (ws + p.opts) == (t.opts + ws) + p.opts;
    assert t.replies + ([e.reply] + p.replies) == (t.replies + [e.reply]) + p.replies;
    assert t.nons + ([] + p.nons) == t.nons + p.nons;
  }

  /** The words after a run: options, then non-options, then the rest, each in the order given. */
  ghost function Sorted(s: seq<string>, i0: nat, p: Parsed): seq<string>
    requires i0 <= |s|
  {
    s[..i0] + p.opts + p.nons + p.rest
  }

  class Scanner {
    var optind: nat
    var place: string
    var nonoptStart: int
    var nonoptEnd: int

    /** A scanner that has not begun. */
    constructor ()
      ensures optind == 1 && place == "" && nonoptStart == -1 && nonoptEnd == -1
    {
      optind, place, nonoptStart, nonoptEnd := 1, "", -1, -1;
    }

    ghost predicate Ready(options: string, longs: seq<Long>, t: Trace, argv: seq<string>)
      requires Sane(longs)
      reads this
    {
      Placed(t, argv, optind) && Marked(t, place, nonoptStart, nonoptEnd) && Agrees(options, longs, t, optind, place)
    }

    /** Passing over one non-option; those passed before are first brought up to it. */
    method PassNonOption(argv: array<string>, ghost options: string, ghost longs: seq<Long>, ghost t: Trace)
        returns (ghost t': Trace)
      requires Sane(longs) && Ready(options, longs, t, argv[..]) && place == "" && optind < argv.Length
               && NonOption(argv[optind])
      requires ModeOf(options).Permute?
      modifies this, argv
      ensures Ready(options, longs, t', argv[..]) && place == "" && optind == old(optind) + 1
      ensures t'.s == t.s && t'.i0 == t.i0 && t'.replies == t.replies
    {
      hide Placed, Agrees, Exchanged, NonOption;
      Untouched(t, argv[..], optind);
      ghost var w := t.s[optind];
      ghost var k := |t.opts|;
      AgreesGathered(options, longs, t, optind, "", k);
      if nonoptStart == -1 {
        NoNons(t, argv[..], optind, k);
        nonoptStart := optind;
      } else if nonoptEnd != -1 {
        Gathered(t, argv[..], optind, nonoptStart, nonoptEnd);
        PermuteArgs(argv, nonoptStart, nonoptEnd, optind);
        nonoptStart := optind - (nonoptEnd - nonoptStart);
        nonoptEnd := -1;
      }
      SkippedNon(t.(k := k), argv[..], optind);
      AgreesNon(options, longs, t.(k := k), optind);
      t' := t.(k := k, nons := t.nons + [w]);
      optind := optind + 1;
    }

    method SkipNonOptions(argv: array<string>, ghost options: string, ghost longs: seq<Long>, ghost t: Trace)
        returns (ghost t': Trace)
      requires Sane(longs) && Ready(options, longs, t, argv[..]) && place == "" && ModeOf(options).Permute?
      modifies this, argv
      ensures Ready(options, longs, t', argv[..]) && place == "" && optind >= old(optind)
      ensures t'.s == t.s && t'.i0 == t.i0 && t'.replies == t.replies
      ensures optind < argv.Length ==> !NonOption(argv[optind])
    {
      hide Placed, Agrees, Marked, NonOption;
      t' := t;
      while optind < argv.Length && NonOption(argv[optind])
        invariant Ready(options, longs, t', argv[..]) && place == "" && old(optind) <= optind
        invariant t'.s == t.s && t'.i0 == t.i0 && t'.replies == t.replies
        decreases argv.Length - optind
      {
        t' := PassNonOption(argv, options, longs, t');
      }
    }

    /** The last call: non-options passed go behind the options, and the index to the first of them. */
    method Finish(argv: array<string>, ghost t: Trace, ghost p: Parsed)
      requires Placed(t, argv[..], optind) && Marked(t, "", nonoptStart, nonoptEnd)
      requires p == Parsed(t.replies, t.opts, t.nons, t.s[optind..])
      modifies this, argv
      ensures t.i0 <= |t.s| && argv[..] == Sorted(t.s, t.i0, p) && optind == t.i0 + |p.opts|
      ensures place == "" && nonoptStart == -1 && nonoptEnd == -1
    {
      place := "";
      ghost var t' := t.(k := |t.opts|);
      if nonoptEnd != -1 {
        Gathered(t, argv[..], optind, nonoptStart, nonoptEnd);
        PermuteArgs(argv, nonoptStart, nonoptEnd, optind);
        PlacedSorted(t', argv[..], optind, p);
        optind := optind - (nonoptEnd - nonoptStart);
      } else {
        if nonoptStart == -1 { NoNons(t, argv[..], optind, |t.opts|); }
        PlacedSorted(t', argv[..], optind, p);
        if nonoptStart != -1 { optind := nonoptStart; }
      }
      nonoptStart, nonoptEnd := -1, -1;
    }

    /** Scanning one option of the current word. */
    method TakeOne(argv: array<string>, options: string, longs: seq<Long>, ghost t: Trace)
        returns (r: Reply, ghost t': Trace)
      requires Sane(longs) && Ready(options, longs, t, argv[..]) && place != ""
      modifies this
      ensures t'.s == t.s && t'.i0 == t.i0 && Ready(options, longs, t', argv[..]) && t'.replies == t.replies + [r]
      ensures optind > old(optind) || (optind == old(optind) && place != "" && |place| < old(|place|))
    {
      hide Placed, Agrees, ParseOne;
      Untouched(t, argv[..], optind);
      AgreesFirst(options, longs, t, optind, place);
      var e := ParseOne(Letters(options), longs, place, argv[optind + 1..]);
      ParseOneUsed(Letters(options), longs, place, argv[optind + 1..]);
      AgreesOne(options, longs, t, optind, place);
      TookOpts(t, argv[..], optind, e.used, t.replies + [e.reply]);
      t' := t.(opts := t.opts + t.s[optind..optind + e.used], replies := t.replies + [e.reply]);
      optind := optind + e.used;
      place := e.rest;
      r := e.reply;
    }

    /** "--" ends the options. */
    method TakeDashes(argv: array<string>, ghost options: string, ghost longs: seq<Long>, ghost t: Trace)
      requires Sane(longs) && Placed(t, argv[..], optind) && Agrees(options, longs, t, optind, "") && optind < |t.s|
               && t.s[optind] == "--"
      requires Marked(t, "-", nonoptStart, nonoptEnd)
      modifies this, argv
      ensures var p := Scan(options, longs, t.s, t.i0, "");
              t.i0 <= |t.s| && p.replies == t.replies && argv[..] == Sorted(t.s, t.i0, p) && optind == t.i0 + |p.opts|
    {
      hide Placed, Agrees, Scan, Sorted;
      AgreesDashes(options, longs, t, optind);
      TookOpts(t, argv[..], optind, 1, t.replies);
      ghost var t' := t.(opts := t.opts + t.s[optind..optind + 1], replies := t.replies);
      assert t.s[optind..optind + 1] == ["--"];
      optind := optind + 1;
      Finish(argv, t', Scan(options, longs, t.s, t.i0, ""));
    }

    /** Taking up the word at the index: an option word, or the end of the options. */
    method TakeWord(argv: array<string>, ghost options: string, ghost longs: seq<Long>, ghost t: Trace)
        returns (dashes: bool)
      requires Sane(longs) && Ready(options, longs, t, argv[..]) && place == "" && optind < argv.Length
               && !NonOption(argv[optind])
      modifies this, argv
      ensures !dashes ==> Ready(options, longs, t, argv[..]) && optind == old(optind)
      ensures !dashes ==> optind < |t.s| && place != "" && |place| < |t.s[optind]|
      ensures dashes ==>
                var p := Scan(options, longs, t.s, t.i0, "");
                t.i0 <= |t.s| && p.replies == t.replies && argv[..] == Sorted(t.s, t.i0, p) && optind == t.i0 + |p.opts|
    {
      hide Placed, Agrees, Scan, Sorted, Marked;
      Untouched(t, argv[..], optind);
      MarkWord(t, optind, nonoptStart, nonoptEnd, argv[optind][1..]);
      if nonoptStart != -1 && nonoptEnd == -1 { nonoptEnd := optind; }
      place := argv[optind][1..];
      dashes := place == "-";
      if dashes {
        TakeDashes(argv, options, longs, t);
      } else {
        AgreesWord(options, longs, t, optind);
      }
    }

    /** Returning a non-option as an argument. */
    method TakePlain(argv: array<string>, options: string, ghost longs: seq<Long>, ghost t: Trace)
        returns (ghost t': Trace)
      requires Sane(longs) && Ready(options, longs, t, argv[..]) && place == "" && optind < argv.Length
               && NonOption(argv[optind])
      requires ModeOf(options).InOrder?
      modifies this
      ensures t'.s == t.s && t'.i0 == t.i0 && Ready(options, longs, t', argv[..])
              && t'.replies == t.replies + [Plain(argv[old(optind)])]
      ensures optind == old(optind) + 1 && place == ""
    {
      hide Placed, Agrees, NonOption;
      AgreesNone(options, longs, t, optind, place);
      Untouched(t, argv[..], optind);
      AgreesPlain(options, longs, t, optind);
      TookOpts(t, argv[..], optind, 1, t.replies + [Plain(argv[optind])]);
      t' := t.(opts := t.opts + t.s[optind..optind + 1], replies := t.replies + [Plain(argv[optind])]);
      optind := optind + 1;
    }

    /** One call. None stands for the -1 that ends a run. */
    method Next(argv: array<string>, options: string, longs: seq<Long>, ghost t: Trace)
        returns (r: Option<Reply>, ghost t': Trace)
      requires Sane(longs) && Ready(options, longs, t, argv[..])
      modifies this, argv
      ensures t'.s == t.s && t'.i0 == t.i0 <= |t.s|
      ensures r.Some? ==> Ready(options, longs, t', argv[..]) && t'.replies == t.replies + [r.v]
      ensures r.Some? ==> || optind > old(optind)
                          || (optind == old(optind) && Left(t.s, optind, place) < old(Left(t.s, optind, place)))
      ensures r.None? ==>
                var p := Scan(options, longs, t.s, t.i0, "");
                p.replies == t.replies && argv[..] == Sorted(t.s, t.i0, p) && optind == t.i0 + |p.opts|
    {
      hide Placed, Agrees, Scan, Marked, Sorted;
      t' := t;
      Untouched(t, argv[..], optind);
      if place == "" {
        if ModeOf(options).Permute? { t' := SkipNonOptions(argv, options, longs, t); }
        Untouched(t', argv[..], optind);
        if optind >= argv.Length {
          AgreesEnd(options, longs, t');
          Finish(argv, t', Scan(options, longs, t.s, t.i0, ""));
          return None, t';
        }
        if NonOption(argv[optind]) {
          if ModeOf(options).Stop? {
            StopHere(argv[..], options, longs, t', optind);
            return None, t';
          }
          var w := argv[optind];
          t' := TakePlain(argv, options, longs, t');
          return Some(Plain(w)), t';
        }
        var dashes := TakeWord(argv, options, longs, t');
        if dashes { return None, t'; }
      }
      var reply;
      reply, t' := TakeOne(argv, options, longs, t');
      r := Some(reply);
    }
  }

  /** The non-options end where an option word is taken up. */
  lemma MarkWord(t: Trace, optind: nat, start: int, end: int, place: string)
    requires Marked(t, "", start, end) && t.i0 + |t.opts| + |t.nons| == optind && place != ""
    ensures Marked(t, place, start, if start != -1 && end == -1 then optind else end)
  {}

  lemma AgreesFirst(options: string, longs: seq<Long>, t: Trace, optind: nat, place: string)
    requires Sane(longs) && Agrees(options, longs, t, optind, place)
    ensures t.i0 <= optind <= |t.s| && (place != "" ==> optind < |t.s|)
  {}

  lemma AgreesGathered(options: string, longs: seq<Long>, t: Trace, optind: nat, place: string, k: nat)
    requires Sane(longs) && Agrees(options, longs, t, optind, place)
    ensures Agrees(options, longs, t.(k := k), optind, place)
  {}

  lemma AgreesNone(options: string, longs: seq<Long>, t: Trace, optind: nat, place: string)
    requires Sane(longs) && Agrees(options, longs, t, optind, place)
    ensures !ModeOf(options).Permute? ==> t.nons == []
  {}

  /** At a non-option that ends the options. */
  lemma StopHere(argv: seq<string>, options: string, longs: seq<Long>, t: Trace, optind: nat)
    requires Sane(longs) && Placed(t, argv, optind) && Agrees(options, longs, t, optind, "") && optind < |t.s|
    requires NonOption(t.s[optind]) && ModeOf(options).Stop?
    ensures var p := Scan(options, longs, t.s, t.i0, "");
            t.i0 <= |t.s| && p.replies == t.replies && argv == Sorted(t.s, t.i0, p) && optind == t.i0 + |p.opts|
  {
    assert Scan(options, longs, t.s, t.i0, "") == Parsed(t.replies, t.opts, t.nons, t.s[optind..]);
    hide Scan;
    NoNons(t, argv, optind, |t.opts|);
    PlacedSorted(t.(k := |t.opts|), argv, optind, Parsed(t.replies, t.opts, t.nons, t.s[optind..]));
  }

  /** At the end of the words. */
  lemma AgreesEnd(options: string, longs: seq<Long>, t: Trace)
    requires Sane(longs) && Agrees(options, longs, t, |t.s|, "")
    ensures Scan(options, longs, t.s, t.i0, "") == Parsed(t.replies, t.opts, t.nons, [])
  {
    assert Scan(options, longs, t.s, |t.s|, "") == Parsed([], [], [], []);
  }

  /** At "--". */
  lemma AgreesDashes(options: string, longs: seq<Long>, t: Trace, optind: nat)
    requires Sane(longs) && Agrees(options, longs, t, optind, "") && optind < |t.s| && t.s[optind] == "--"
    ensures Scan(options, longs, t.s, t.i0, "") == Parsed(t.replies, t.opts + ["--"], t.nons, t.s[optind + 1..])
  {}

  /** The words with all option words in front, as a run leaves them. */
  lemma PlacedSorted(t: Trace, argv: seq<string>, optind: nat, p: Parsed)
    requires Placed(t, argv, optind) && t.k == |t.opts| && p == Parsed(t.replies, t.opts, t.nons, t.s[optind..])
    ensures t.i0 <= |t.s| && argv == Sorted(t.s, t.i0, p)
  {
    assert t.opts[..t.k] == t.opts && t.opts[t.k..] == [];
  }

  // ----- whole runs -----

  /** All calls up to the one that returns -1: the replies are those of the plain scan of the words as
      given, and the words end up sorted with the index behind the option words. */
  method ParseAll(argv: array<string>, options: string, longs: seq<Long>) returns (replies: seq<Reply>, optind: nat)
    requires Sane(longs) && argv.Length >= 1
    modifies argv
    ensures var (s, p) := (old(argv[..]), Scan(options, longs, old(argv[..]), 1, ""));
            replies == p.replies && argv[..] == Sorted(s, 1, p) && optind == 1 + |p.opts|
  {
    var g := new Scanner();
    ghost var s := argv[..];
    ghost var t := Trace(s, 1, [], [], [], 0);
    assert s == s[..1] + ([] + [] + []) + s[1..];
    assert g.Ready(options, longs, t, argv[..]);
    hide Scan, Sorted, Scanner.Ready;
    replies := [];
    while true
      invariant g.Ready(options, longs, t, argv[..]) && t.s == s && t.i0 == 1 && t.replies == replies && g.optind <= |s|
      decreases |s| - g.optind, Left(s, g.optind, g.place)
    {
      var r;
      r, t := g.Next(argv, options, longs, t);
      if r.None? { return replies, g.optind; }
      assert g.optind <= |s| by { InRange(g, options, longs, t, argv[..]); }
      replies := replies + [r.v];
    }
  }

  lemma InRange(g: Scanner, options: string, longs: seq<Long>, t: Trace, argv: seq<string>)
    requires Sane(longs) && g.Ready(options, longs, t, argv)
    ensures g.optind <= |t.s|
  {}

  /** The words of `ws` that `mask` marks with `b`, in order. */
  function Pick(ws: seq<string>, mask: seq<bool>, b: bool): seq<string>
    requires |mask| <= |ws|
  {
    if mask == [] then [] else (if mask[0] == b then [ws[0]] else []) + Pick(ws[1..], mask[1..], b)
  }

  lemma {:induction false} PickAll(ws: seq<string>, n: nat, mask: seq<bool>)
    requires n + |mask| <= |ws|
    ensures var m := seq(n, _ => true) + mask;
            Pick(ws, m, true) == ws[..n] + Pick(ws[n..], mask, true) && Pick(ws, m, false) == Pick(ws[n..], mask, false)
  {
    var m := seq(n, _ => true) + mask;
    if n == 0 {
      assert m == mask && ws[0..] == ws;
    } else {
      PickAll(ws[1..], n - 1, mask);
      assert m[0] && m[1..] == seq(n - 1, _ => true) + mask;
      assert ws[1..][n - 1..] == ws[n..] && [ws[0]] + ws[1..][..n - 1] == ws[..n];
    }
  }

  /** Option words and non-options are picked from the words from `i` on in their order; no word is lost
      or made up, and the words kept as non-options are non-options. */
  ghost predicate Splits(s: seq<string>, i: nat, p: Parsed, mask: seq<bool>) {
    && i <= |s| && i + |mask| + |p.rest| == |s| && p.rest == s[i + |mask|..]
    && p.opts == Pick(s[i..], mask, true) && p.nons == Pick(s[i..], mask, false)
    && forall k :: 0 <= k < |p.nons| ==> NonOption(p.nons[k])
  }

  lemma SplitsNon(s: seq<string>, i: nat, p: Parsed, mask: seq<bool>)
    requires Splits(s, i + 1, p, mask) && NonOption(s[i])
    ensures Splits(s, i, Add([], [], [s[i]], p), [false] + mask)
  {
    assert ([false] + mask)[1..] == mask && s[i..][1..] == s[i + 1..];
  }

  lemma SplitsDashes(s: seq<string>, i: nat)
    requires i < |s|
    ensures Splits(s, i, Parsed([], [s[i]], [], s[i + 1..]), [true])
  {
    assert [true][1..] == [] && s[i..][0] == s[i];
    assert Pick(s[i..], [true], true) == [s[i]] + Pick(s[i..][1..], [], true);
    assert Pick(s[i..], [true], false) == [] + Pick(s[i..][1..], [], false);
  }

  lemma SplitsEnd(s: seq<string>, i: nat)
    requires i <= |s|
    ensures Splits(s, i, Parsed([], [], [], s[i..]), [])
  {}

  lemma SplitsOne(s: seq<string>, i: nat, n: nat, r: Reply, p: Parsed, mask: seq<bool>)
    requires i + n <= |s| && Splits(s, i + n, p, mask)
    ensures Splits(s, i, Add([r], s[i..i + n], [], p), seq(n, _ => true) + mask)
  {
    PickAll(s[i..], n, mask);
    assert s[i..][n..] == s[i + n..] && s[i..][..n] == s[i..i + n];
    hide Pick;
  }

  /** A run splits the words into options and non-options, stably. */
  lemma {:induction false} Partition(options: string, longs: seq<Long>, s: seq<string>, i: nat, place: string)
      returns (mask: seq<bool>)
    requires Sane(longs) && i <= |s| && (place != "" ==> i < |s|)
    ensures Splits(s, i, Scan(options, longs, s, i, place), mask)
    decreases |s| - i, Left(s, i, place)
  {
    hide Splits, Pick, ParseOne, NonOption;
    if place == "" && i == |s| {
      mask := [];
      SplitsEnd(s, i);
    } else if place == "" && NonOption(s[i]) && ModeOf(options).Stop? {
      mask := [];
      SplitsEnd(s, i);
    } else if place == "" && NonOption(s[i]) && ModeOf(options).InOrder? {
      mask := Partition(options, longs, s, i + 1, "");
      SplitsOne(s, i, 1, Plain(s[i]), Scan(options, longs, s, i + 1, ""), mask);
      mask := seq(1, _ => true) + mask;
    } else if place == "" && NonOption(s[i]) {
      mask := Partition(options, longs, s, i + 1, "");
      SplitsNon(s, i, Scan(options, longs, s, i + 1, ""), mask);
      mask := [false] + mask;
    } else if place == "" && s[i] == "--" {
      mask := [true];
      SplitsDashes(s, i);
    } else {
      OptionWord(s[i], place);
      var here := if place == "" then s[i][1..] else place;
      var e := ParseOne(Letters(options), longs, here, s[i + 1..]);
      ParseOneUsed(Letters(options), longs, here, s[i + 1..]);
      mask := Partition(options, longs, s, i + e.used, e.rest);
      SplitsOne(s, i, e.used, e.reply, Scan(options, longs, s, i + e.used, e.rest), mask);
      mask := seq(e.used, _ => true) + mask;
    }
  }

  lemma OptionWord(w: string, place: string)
    ensures place == "" && !NonOption(w) ==> |w| >= 2 && w[1..] != ""
  {}
}
