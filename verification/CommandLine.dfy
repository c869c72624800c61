/** Command lines written by the rules of an option string and a table of long options are read back as
    they were meant. */
module CommandLine {
  import opened Basics
  import opened Getopt

  /** What an option string says of a letter: no argument, or one behind a ':', or an optional one behind
      a "::". A letter with a ';' stands for a long option and is not meant here. */
  function KindOf(letters: string, c: char): Option<HasArg> {
    var at := Find(letters, c);
    if c == ':' || c == '-' || at.None? || CharAt(letters, at.v + 1) == ';' then None
    else if CharAt(letters, at.v + 1) != ':' then Some(NoArg)
    else Some(if CharAt(letters, at.v + 2) == ':' then Optional else Required)
  }

  /** Something to say on a command line: letters in one word, of which the last may have an argument; a
      long option; or an operand. An argument is in the same word if it is glued. */
  datatype Item =
    | Short(flags: string, c: char, arg: Option<string>, glued: bool)
    | Word(i: nat, arg: Option<string>, glued: bool)
    | Operand(w: string)

  /** An argument is given where one is required, and not where none is allowed; an optional one is glued,
      and so is none but a non-empty one to a letter. */
  predicate Fits(has: HasArg, arg: Option<string>, glued: bool) {
    match has
    case NoArg => arg.None?
    case Required => arg.Some?
    case Optional => arg.Some? ==> glued
  }

  predicate Allowed(letters: string, longs: seq<Long>, x: Item) {
    match x
    case Short(flags, c, arg, glued) =>
      && (forall k :: 0 <= k < |flags| ==> KindOf(letters, flags[k]) == Some(NoArg))
      && KindOf(letters, c).Some? && Fits(KindOf(letters, c).v, arg, glued) && (glued && arg.Some? ==> arg.v != "")
    case Word(i, arg, glued) =>
      && i < |longs| && longs[i].name != "" && '=' !in longs[i].name && Fits(longs[i].has, arg, glued)
      && (forall j :: 0 <= j < i ==> longs[j].name != longs[i].name)
    case Operand(w) => NonOption(w)
  }

  /** The part of the argument in the word of the option. */
  function Glue(x: Item): string
    requires !x.Operand?
  {
    if x.arg.None? || !x.glued then "" else if x.Word? then "=" + x.arg.v else x.arg.v
  }

  /** The words that say it. */
  function Words(longs: seq<Long>, x: Item): seq<string> {
    match x
    case Operand(w) => [w]
    case Short(flags, c, arg, glued) => ["-" + (flags + ([c] + Glue(x)))] + Apart(arg, glued)
    case Word(i, arg, glued) =>
        if i < |longs| then ["-" + ("-" + (longs[i].name + Glue(x)))] + Apart(arg, glued) else []
  }

  function Apart(arg: Option<string>, glued: bool): seq<string> { if arg.Some? && !glued then [arg.v] else [] }

  function FlagReplies(flags: string): seq<Reply> {
    if flags == "" then [] else [Reply(flags[0] as int, None, None)] + FlagReplies(flags[1..])
  }

  /** The replies that mean it. */
  function Replies(longs: seq<Long>, x: Item): seq<Reply> {
    match x
    case Operand(w) => []
    case Short(flags, c, arg, _) => FlagReplies(flags) + [Reply(c as int, arg, None)]
    case Word(i, arg, _) =>
        if i < |longs| then [Reply(if longs[i].flag.Some? then 0 else longs[i].val, arg, Some(i))] else []
  }

  // ----- one option -----

  /** A letter without an argument, with more of the word behind it. */
  lemma FlagOne(letters: string, longs: seq<Long>, c: char, rest: string, next: seq<string>)
    requires KindOf(letters, c) == Some(NoArg) && rest != ""
    ensures ParseOne(letters, longs, [c] + rest, next) == Elem(Reply(c as int, None, None), 0, rest)
  {
    assert ([c] + rest)[1..] == rest;
  }

  /** The last letter of a word, with what follows it. */
  lemma LastOne(letters: string, longs: seq<Long>, x: Item, next: seq<string>)
    requires x.Short? && Allowed(letters, longs, x) && Apart(x.arg, x.glued) <= next
    ensures ParseOne(letters, longs, [x.c] + Glue(x), next)
            == Elem(Reply(x.c as int, x.arg, None), 1 + |Apart(x.arg, x.glued)|, "")
  {
    assert ([x.c] + Glue(x))[1..] == Glue(x);
    assert x.arg.Some? && !x.glued ==> next[0] == Apart(x.arg, x.glued)[0];
  }

  /** A name that is in the table is found there, at its first place. */
  lemma {:induction false} SearchExact(longs: seq<Long>, i: nat, k: nat, first: Option<nat>, second: bool)
    requires k <= i < |longs| && (first.Some? ==> first.v < |longs|) && forall j :: 0 <= j < i ==>
             longs[j].name != longs[i].name
    ensures Search(longs, longs[i].name, k, first, second) == Found(i)
    decreases i - k
  {
    if k < i {
      var partial := longs[i].name <= longs[k].name;
      if !partial {
        SearchExact(longs, i, k + 1, first, second);
      } else if first.None? {
        SearchExact(longs, i, k + 1, Some(k), second);
      } else {
        SearchExact(longs, i, k + 1, first, second || !Alike(longs[k], longs[first.v]));
      }
    }
  }

  /** A long option by its name, with what follows it. */
  lemma LongOne(letters: string, longs: seq<Long>, x: Item, next: seq<string>)
    requires x.Word? && Allowed(letters, longs, x) && Apart(x.arg, x.glued) <= next
    ensures ParseOne(letters, longs, "-" + (longs[x.i].name + Glue(x)), next) ==
            Elem(Replies(longs, x)[0], 1 + |Apart(x.arg, x.glued)|, "")
  {
    var (name, place) := (longs[x.i].name, longs[x.i].name + Glue(x));
    assert ("-" + place)[1..] == place;
    NameEnds(name, Glue(x));
    assert place[..|name|] == name && (Glue(x) == "" ==> place == name)
           && (Glue(x) != "" ==> place[|name| + 1..] == x.arg.v);
    SearchExact(longs, x.i, 0, None, false);
    assert x.arg.Some? && !x.glued ==> next[0] == Apart(x.arg, x.glued)[0];
    hide Search, Find;
  }

  /** The name ends where the argument begins. */
  lemma NameEnds(name: string, glue: string)
    requires '=' !in name && (glue != "" ==> glue[0] == '=')
    ensures Find(name + glue, '=') == if glue == "" then None else Some(|name|)
  {
    var s := name + glue;
    FindIs(s, '=');
    assert glue != "" ==> s[|name|] == '=';
    assert forall k :: 0 <= k < |name| ==> s[k] == name[k];
    hide Find;
  }

  // ----- one item -----

  lemma AddTwice(a: Reply, r: seq<Reply>, o: seq<string>, p: Parsed)
    ensures Add([a], [], [], Add(r, o, [], p)) == Add([a] + r, o, [], p)
  {
    assert [] + (o + p.opts) == o + p.opts && [a] + (r + p.replies) == ([a] + r) + p.replies;
  }

  lemma ScanOneIs(options: string, longs: seq<Long>, s: seq<string>, i: nat, place: string, e: Elem)
    requires Sane(longs) && i < |s| && place != "" && ParseOne(Letters(options), longs, place, s[i + 1..]) == e
    ensures i + e.used <= |s| && (e.rest != "" ==> i + e.used < |s|)
    ensures ScanOne(options, longs, s, i, place)
            == Add([e.reply], s[i..i + e.used], [], Scan(options, longs, s, i + e.used, e.rest))
  {
    hide ParseOne, Scan, Letters, Add;
    ParseOneUsed(Letters(options), longs, place, s[i + 1..]);
  }

  lemma ScanPlace(options: string, longs: seq<Long>, s: seq<string>, i: nat, place: string)
    requires Sane(longs) && i < |s| && place != ""
    ensures Scan(options, longs, s, i, place) == ScanOne(options, longs, s, i, place)
  {
    hide ScanOne;
  }

  /** The letters of a word are read one after the other. */
  lemma {:induction false} ShortScan(options: string, longs: seq<Long>, s: seq<string>, i: nat, x: Item)
    requires Sane(longs) && i < |s| && x.Short? && Allowed(Letters(options), longs, x)
             && Apart(x.arg, x.glued) <= s[i + 1..]
    ensures var (e, place) := (i + 1 + |Apart(x.arg, x.glued)|, x.flags + ([x.c] + Glue(x)));
            && e <= |s|
            && ScanOne(options, longs, s, i, place)
                 == Add(Replies(longs, x), s[i..e], [], Scan(options, longs, s, e, ""))
    decreases |x.flags|
  {
    hide ParseOne, KindOf, Scan, ScanOne, Letters, Add, Fits;
    var last := [x.c] + Glue(x);
    var (place, next) := (x.flags + last, s[i + 1..]);
    var e := i + 1 + |Apart(x.arg, x.glued)|;
    if x.flags == "" {
      assert place == last && Replies(longs, x) == [Reply(x.c as int, x.arg, None)];
      LastOne(Letters(options), longs, x, next);
      ScanOneIs(options, longs, s, i, place, Elem(Reply(x.c as int, x.arg, None), 1 + |Apart(x.arg, x.glued)|, ""));
    } else {
      var y := x.(flags := x.flags[1..]);
      var (rest, r) := (y.flags + last, Reply(x.flags[0] as int, None, None));
      assert place == [x.flags[0]] + rest;
      FlagOne(Letters(options), longs, x.flags[0], rest, next);
      ScanOneIs(options, longs, s, i, place, Elem(r, 0, rest));
      ScanPlace(options, longs, s, i, rest);
      ShortScan(options, longs, s, i, y);
      assert s[i..i] == [];
      AddTwice(r, Replies(longs, y), s[i..e], Scan(options, longs, s, e, ""));
      assert [r] + Replies(longs, y) == Replies(longs, x);
    }
  }

  /** A word that starts an option. */
  lemma StartsOption(options: string, longs: seq<Long>, s: seq<string>, i: nat, body: string)
    requires Sane(longs) && i < |s| && s[i] == "-" + body && body != "" && body != "-"
    ensures Scan(options, longs, s, i, "") == ScanOne(options, longs, s, i, body)
  {
    assert s[i][1..] == body && s[i][1] == body[0] && |s[i]| == 1 + |body|;
    assert |body| == 1 ==> body == [body[0]];
    hide ScanOne;
  }

  /** No option word is "--". */
  lemma FirstLetter(letters: string, longs: seq<Long>, x: Item)
    requires Allowed(letters, longs, x) && !x.Operand?
    ensures x.Short? ==> (x.flags + ([x.c] + Glue(x)))[0] != '-'
    ensures x.Word? ==> x.i < |longs| && longs[x.i].name != ""
  {}

  lemma WordsAt(s: seq<string>, i: nat, ws: seq<string>, apart: seq<string>)
    requires i <= |s| && ws <= s[i..] && ws != [] && ws[1..] == apart
    ensures i + 1 + |apart| == i + |ws| <= |s| && s[i] == ws[0] && s[i..i + |ws|] == ws && apart <= s[i + 1..]
  {
    assert s[i..i + |ws|] == s[i..][..|ws|] == ws;
    assert s[i + 1..][..|apart|] == s[i..i + |ws|][1..];
  }

  /** One option is read as meant, and the reading goes on behind its words. */
  lemma ReadsItem(options: string, longs: seq<Long>, s: seq<string>, i: nat, x: Item)
    requires Sane(longs) && i <= |s| && Allowed(Letters(options), longs, x) && !x.Operand? && Words(longs, x) <= s[i..]
    ensures i + |Words(longs, x)| <= |s|
    ensures Scan(options, longs, s, i, "")
            == Add(Replies(longs, x), Words(longs, x), [], Scan(options, longs, s, i + |Words(longs, x)|, ""))
  {
    hide Scan, ScanOne, ParseOne, Letters, Add, Glue, Apart, Allowed;
    FirstLetter(Letters(options), longs, x);
    var (ws, apart) := (Words(longs, x), Apart(x.arg, x.glued));
    assert ws[1..] == apart;
    WordsAt(s, i, ws, apart);
    if x.Short? {
      StartsOption(options, longs, s, i, x.flags + ([x.c] + Glue(x)));
      ShortScan(options, longs, s, i, x);
    } else {
      var body := "-" + (longs[x.i].name + Glue(x));
      assert |body| > 1;
      StartsOption(options, longs, s, i, body);
      LongOne(Letters(options), longs, x, s[i + 1..]);
      ScanOneIs(options, longs, s, i, body, Elem(Replies(longs, x)[0], 1 + |apart|, ""));
    }
  }

  // ----- whole command lines -----

  function AllWords(longs: seq<Long>, xs: seq<Item>): seq<string> {
    if xs == [] then [] else Words(longs, xs[0]) + AllWords(longs, xs[1..])
  }

  /** What a command line means: every option its replies, in order; operands as the mode has it; and all
      behind "--" left alone. */
  function Meant(mode: Mode, longs: seq<Long>, xs: seq<Item>, tail: seq<string>): Parsed {
    if xs == [] then
      if tail == [] then Parsed([], [], [], []) else Parsed([], ["--"], [], tail[1..])
    else
      var rest := Meant(mode, longs, xs[1..], tail);
      if !xs[0].Operand? then Add(Replies(longs, xs[0]), Words(longs, xs[0]), [], rest)
      else
        match mode
        case Permute => Add([], [], [xs[0].w], rest)
        case InOrder => Add([Plain(xs[0].w)], [xs[0].w], [], rest)
        case Stop => Parsed([], [], [], AllWords(longs, xs) + tail)
  }

  /** An operand, and the end of the line. */
  lemma ReadsOperand(options: string, longs: seq<Long>, s: seq<string>, i: nat, w: string)
    requires Sane(longs) && i < |s| && s[i] == w && NonOption(w)
    ensures var rest := Scan(options, longs, s, i + 1, "");
            Scan(options, longs, s, i, "") ==
            match ModeOf(options)
            case Permute => Add([], [], [w], rest)
            case InOrder => Add([Plain(w)], [w], [], rest)
            case Stop => Parsed([], [], [], s[i..])
  {
    assert s[i..i + 1] == [w];
  }

  lemma ReadsTail(options: string, longs: seq<Long>, s: seq<string>, i: nat, tail: seq<string>)
    requires Sane(longs) && i <= |s| && (tail != [] ==> tail[0] == "--") && s[i..] == tail
    ensures Scan(options, longs, s, i, "") == Meant(ModeOf(options), longs, [], tail)
  {
    assert tail != [] ==> s[i] == "--" && s[i + 1..] == tail[1..];
  }

  /** For every option string, table and command line by its rules, the scan gives back what was meant. */
  lemma {:induction false} ReadsBack(options: string, longs: seq<Long>, s: seq<string>, i: nat, xs: seq<Item>,
                                     tail: seq<string>)
    requires Sane(longs) && i <= |s| && (tail != [] ==> tail[0] == "--")
    requires forall k :: 0 <= k < |xs| ==> Allowed(Letters(options), longs, xs[k])
    requires s[i..] == AllWords(longs, xs) + tail
    ensures Scan(options, longs, s, i, "") == Meant(ModeOf(options), longs, xs, tail)
    decreases |xs|
  {
    hide Allowed, Words, Replies, Scan, Letters, ModeOf, Add;
    if xs == [] {
      assert s[i..] == tail;
      ReadsTail(options, longs, s, i, tail);
    } else {
      var (ws, more) := (Words(longs, xs[0]), AllWords(longs, xs[1..]));
      Advance(s, i, ws, more, tail);
      ReadsBack(options, longs, s, i + |ws|, xs[1..], tail);
      if xs[0].Operand? {
        OperandWord(Letters(options), longs, xs[0]);
        ReadsOperand(options, longs, s, i, xs[0].w);
      } else {
        ReadsItem(options, longs, s, i, xs[0]);
      }
    }
  }

  lemma Advance(s: seq<string>, i: nat, ws: seq<string>, more: seq<string>, tail: seq<string>)
    requires i <= |s| && s[i..] == (ws + more) + tail
    ensures i + |ws| <= |s| && ws <= s[i..] && s[i + |ws|..] == more + tail && (ws != [] ==> s[i] == ws[0])
  {
    assert s[i..] == ws + (more + tail);
    assert s[i + |ws|..] == s[i..][|ws|..];
  }

  lemma OperandWord(letters: string, longs: seq<Long>, x: Item)
    requires x.Operand? && Allowed(letters, longs, x)
    ensures NonOption(x.w) && Words(longs, x) == [x.w]
  {}

  // ----- mistakes -----

  /** A letter that the option string does not have is reported, and the reading goes on. */
  lemma UnknownLetter(options: string, longs: seq<Long>, s: seq<string>, i: nat, c: char)
    requires Sane(longs) && i < |s| && s[i] == "-" + [c] && c != '-' && (c == ':' || c !in Letters(options))
    ensures Scan(options, longs, s, i, "")
            == Add([Reply(BADCH, None, None)], [s[i]], [], Scan(options, longs, s, i + 1, ""))
  {
    FindIs(Letters(options), c);
    assert ParseOne(Letters(options), longs, [c], s[i + 1..]) == Elem(Reply(BADCH, None, None), 1, "");
    StartsOption(options, longs, s, i, [c]);
    hide Scan, ScanOne, ParseOne;
    ScanOneIs(options, longs, s, i, [c], Elem(Reply(BADCH, None, None), 1, ""));
    assert s[i..i + 1] == [s[i]];
  }

  /** A missing argument at the end of the line is reported, as ':' if the option string starts with one. */
  lemma MissingArgument(options: string, longs: seq<Long>, s: seq<string>, i: nat, c: char)
    requires Sane(longs) && i + 1 == |s| && s[i] == "-" + [c] && KindOf(Letters(options), c) == Some(Required)
    ensures Scan(options, longs, s, i, "") ==
            Parsed([Reply(if Letters(options)[..1] == ":" then ':' as int else '?' as int, None, None)], [s[i]], [], [])
  {
    FindIs(Letters(options), c);
    var (e, ls) := (Elem(Reply(BadArg(Letters(options)), None, None), 1, ""), Letters(options));
    assert ls[..1] == [ls[0]];
    assert ParseOne(ls, longs, [c], s[i + 1..]) == e;
    StartsOption(options, longs, s, i, [c]);
    assert Scan(options, longs, s, |s|, "") == Parsed([], [], [], []);
    hide Scan, ScanOne, ParseOne;
    ScanOneIs(options, longs, s, i, [c], e);
    assert s[i..i + 1] == [s[i]];
  }
}
