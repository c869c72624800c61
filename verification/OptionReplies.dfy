/** What every option word is answered, mistakes and abbreviations included: told by what its name means in
    the table and by what the option string says of its letter. */
module OptionReplies {
  import opened Basics
  import opened Getopt
  import opened CommandLine

  /** A missing argument is reported as ':' if the option string starts with one, else as '?'. */
  function Missing(letters: string): Elem {
    Elem(Reply(if letters[..Min(1, |letters|)] == ":" then ':' as int else '?' as int, None, None), 1, "")
  }

  const MISTAKE: Elem := Elem(Reply('?' as int, None, None), 1, "")

  /** The answer for a long option whose name means `m`, with the argument `given` behind a '=' or none. */
  function LongAnswer(letters: string, longs: seq<Long>, m: Match, given: Option<string>, next: seq<string>): Elem {
    match m
    case Unknown => MISTAKE
    case Ambiguous => MISTAKE
    case Found(i) =>
      if i >= |longs| then MISTAKE
      else
        var ret := if longs[i].flag.Some? then 0 else longs[i].val;
        match (longs[i].has, given)
        case (NoArg, None) => Elem(Reply(ret, None, Some(i)), 1, "")
        case (NoArg, Some(_)) => MISTAKE
        case (Optional, _) => Elem(Reply(ret, given, Some(i)), 1, "")
        case (Required, Some(_)) => Elem(Reply(ret, given, Some(i)), 1, "")
        case (Required, None) =>
          if next == [] then Missing(letters) else Elem(Reply(ret, Some(next[0]), Some(i)), 2, "")
  }

  /** A name with an argument behind a '=', or alone. */
  function Spelt(name: string, given: Option<string>): string {
    name + if given.None? then "" else "=" + given.v
  }

  /** Every word is spelt so in exactly one way. */
  lemma SpeltOnce(place: string) returns (name: string, given: Option<string>)
    ensures '=' !in name && place == Spelt(name, given)
    ensures forall n, g :: '=' !in n && place == Spelt(n, g) ==> n == name && g == given
  {
    FindIs(place, '=');
    var eq := Find(place, '=');
    if eq.Some? {
      name, given := place[..eq.v], Some(place[eq.v + 1..]);
    } else {
      name, given := place, None;
    }
    forall n, g | '=' !in n && place == Spelt(n, g)
      ensures n == name && g == given
    {
      SpeltEnds(n, g);
    }
  }

  /** The name is what comes before the first '=', the argument what comes behind. */
  lemma SpeltEnds(name: string, given: Option<string>)
    requires '=' !in name
    ensures var (place, eq) := (Spelt(name, given), Find(Spelt(name, given), '='));
            && (given.None? ==> eq == None && place == name)
            && (given.Some? ==>
                  eq.Some? && eq.v == |name| < |place| && place[..|name|] == name && place[|name| + 1..] == given.v)
  {
    NameEnds(name, if given.None? then "" else "=" + given.v);
  }

  /** For every table and every long option as spelt, the answer is that for the meaning of its name. */
  lemma LongReply(letters: string, longs: seq<Long>, name: string, given: Option<string>, next: seq<string>, m: Match)
    requires '=' !in name && Means(longs, name, m)
    ensures ParseLong(letters, longs, Spelt(name, given), next) == LongAnswer(letters, longs, m, given, next)
  {
    hide Search, Means, Find;
    SpeltEnds(name, given);
    SearchMeans(longs, name, 0, None, false) by { NothingSearched(longs, name); }
    MeansOne(longs, name, m, Search(longs, name, 0, None, false));
    MissingIs(letters);
  }

  lemma NothingSearched(longs: seq<Long>, name: string)
    ensures Searched(longs, name, 0, None, false)
  {}

  lemma MissingIs(letters: string)
    ensures Missing(letters) == Elem(Reply(BadArg(letters), None, None), 1, "")
  {
    if letters != "" { assert letters[..1] == [letters[0]]; }
  }

  /** An abbreviation that means an option is answered like the full name of that option. */
  lemma Abbreviated(letters: string, longs: seq<Long>, name: string, i: nat, given: Option<string>, next: seq<string>)
    requires '=' !in name && Means(longs, name, Found(i)) && i < |longs|
    requires '=' !in longs[i].name && forall j :: 0 <= j < i ==> longs[j].name != longs[i].name
    ensures name <= longs[i].name
    ensures ParseLong(letters, longs, Spelt(name, given), next)
            == ParseLong(letters, longs, Spelt(longs[i].name, given), next)
  {
    assert Means(longs, longs[i].name, Found(i)) by { assert Exact(longs, longs[i].name, i); }
    LongReply(letters, longs, name, given, next, Found(i));
    LongReply(letters, longs, longs[i].name, given, next, Found(i));
  }

  // ----- letters -----

  /** What the option string says of a letter: nothing; that it stands for a long option; or what argument it
      takes. */
  datatype Kind = Unheard | Wide | Plain(has: HasArg)

  predicate FirstAt(letters: string, c: char, k: nat) { k < |letters| && letters[k] == c && c !in letters[..k] }

  ghost predicate Says(letters: string, c: char, kind: Kind) {
    if kind.Unheard? then c == ':' || c !in letters
    else c != ':' && exists k: nat :: FirstAt(letters, c, k) && SaysThen(c, letters[k + 1..], kind)
  }

  /** The same by what follows the letter. */
  predicate SaysThen(c: char, behind: string, kind: Kind) {
    match kind
    case Unheard => false
    case Wide => c == 'W' && ";" <= behind
    case Plain(has) =>
      && !(c == 'W' && ";" <= behind)
      && match has
         case NoArg => !(":" <= behind)
         case Required => ":" <= behind && !("::" <= behind)
         case Optional => "::" <= behind
  }

  /** It says one thing of every letter. */
  lemma KindOnce(letters: string, c: char) returns (kind: Kind)
    ensures Says(letters, c, kind) && forall k :: Says(letters, c, k) ==> k == kind
  {
    FindIs(letters, c);
    var at := Find(letters, c);
    if c == ':' || at.None? {
      kind := Unheard;
    } else {
      var behind := letters[at.v + 1..];
      kind := if c == 'W' && ";" <= behind then Wide
              else Plain(if "::" <= behind then Optional else if ":" <= behind then Required else NoArg);
      assert FirstAt(letters, c, at.v) && forall k: nat :: FirstAt(letters, c, k) ==> k == at.v;
    }
  }

  /** The answer for a letter with `rest` behind it in its word. */
  function LetterAnswer(letters: string, kind: Kind, c: char, rest: string, next: seq<string>): Elem
    requires !kind.Wide?
  {
    var here := if rest == "" then 1 else 0;
    match kind
    case Unheard => Elem(Reply('?' as int, None, None), here, rest)
    case Plain(has) =>
      if has.NoArg? then Elem(Reply(c as int, None, None), here, rest)
      else if rest != "" then Elem(Reply(c as int, Some(rest), None), 1, "")
      else if has.Optional? then Elem(Reply(c as int, None, None), 1, "")
      else if next == [] then Missing(letters)
      else Elem(Reply(c as int, Some(next[0]), None), 2, "")
  }

  /** The letter is found at its first place, and what follows is looked at there. */
  lemma LetterFound(letters: string, c: char, kind: Kind)
    requires Says(letters, c, kind)
    ensures kind.Unheard? ==> c == ':' || Find(letters, c).None?
    ensures !kind.Unheard? ==>
              var at := Find(letters, c);
              && c != ':' && at.Some? && at.v < |letters| && SaysThen(c, letters[at.v + 1..], kind)
  {
    FindIs(letters, c);
    hide Find;
  }

  /** What follows a place, character by character. */
  lemma ThenChars(letters: string, k: nat)
    requires k < |letters|
    ensures var rest := letters[k + 1..];
            && (";" <= rest <==> CharAt(letters, k + 1) == ';') && (":" <= rest <==> CharAt(letters, k + 1) == ':')
            && ("::" <= rest <==> CharAt(letters, k + 1) == ':' && CharAt(letters, k + 2) == ':')
  {}

  /** For every option string and every letter, anywhere in a word, the answer is that for what the option
      string says of it. */
  lemma LetterReply(letters: string, longs: seq<Long>, c: char, kind: Kind, rest: string, next: seq<string>)
    requires c != '-' && Says(letters, c, kind) && !kind.Wide?
    ensures ParseOne(letters, longs, [c] + rest, next) == LetterAnswer(letters, kind, c, rest, next)
  {
    hide Find, Says, ParseLong;
    LetterFound(letters, c, kind);
    if !kind.Unheard? { ThenChars(letters, Find(letters, c).v); }
    assert ([c] + rest)[1..] == rest;
    MissingIs(letters);
  }

  /** A letter that stands for a long option: its name is in the same word or in the next one. */
  lemma WideReply(letters: string, longs: seq<Long>, c: char, name: string, given: Option<string>,
                  next: seq<string>, m: Match)
    requires Says(letters, c, Wide) && '=' !in name && Means(longs, name, m)
    ensures var rest := Spelt(name, given);
            && (rest != "" ==>
                  ParseOne(letters, longs, [c] + rest, next) == LongAnswer(letters, longs, m, given, next))
            && (next != [] && next[0] == rest ==>
                  var e := LongAnswer(letters, longs, m, given, next[1..]);
                  ParseOne(letters, longs, [c], next) == e.(used := e.used + 1))
            && ParseOne(letters, longs, [c], []) == Missing(letters)
  {
    hide Find, Says, ParseLong, Means, LongAnswer;
    LetterFound(letters, c, Wide);
    ThenChars(letters, Find(letters, c).v);
    var rest := Spelt(name, given);
    assert ([c] + rest)[1..] == rest && [c][1..] == "";
    LongReply(letters, longs, name, given, next, m);
    if next != [] { LongReply(letters, longs, name, given, next[1..], m); }
    MissingIs(letters);
  }

  // ----- in a scan -----

  /** A long option in a command line: the answer for its name, and the scan goes on behind its words. */
  lemma LongScan(options: string, longs: seq<Long>, s: seq<string>, i: nat, name: string, given: Option<string>,
                 m: Match)
    requires Sane(longs) && i < |s| && s[i] == "-" + ("-" + Spelt(name, given)) && Spelt(name, given) != ""
    requires '=' !in name && Means(longs, name, m)
    ensures var e := LongAnswer(Letters(options), longs, m, given, s[i + 1..]);
            && i + e.used <= |s| && e.rest == ""
            && Scan(options, longs, s, i, "")
                 == Add([e.reply], s[i..i + e.used], [], Scan(options, longs, s, i + e.used, ""))
  {
    hide Scan, ScanOne, ParseLong, Means, Letters, Add, Spelt;
    var (word, next) := (Spelt(name, given), s[i + 1..]);
    var e := LongAnswer(Letters(options), longs, m, given, next);
    LongReply(Letters(options), longs, name, given, next, m);
    var body := "-" + word;
    assert body[1..] == word;
    assert ParseOne(Letters(options), longs, body, next) == e;
    StartsOption(options, longs, s, i, body);
    hide LongAnswer, ParseOne;
    ScanOneIs(options, longs, s, i, body, e);
    assert e.rest == "" by { LongRest(Letters(options), longs, m, given, next); }
  }

  lemma LongRest(letters: string, longs: seq<Long>, m: Match, given: Option<string>, next: seq<string>)
    ensures LongAnswer(letters, longs, m, given, next).rest == ""
  {}

  /** A letter in a command line, at the start of a word or later: the answer for it, and the scan goes on
      behind what it took. */
  lemma LetterScan(options: string, longs: seq<Long>, s: seq<string>, i: nat, c: char, kind: Kind, rest: string)
    requires Sane(longs) && i < |s| && c != '-' && Says(Letters(options), c, kind) && !kind.Wide?
    ensures var e := LetterAnswer(Letters(options), kind, c, rest, s[i + 1..]);
            && i + e.used <= |s| && (e.rest != "" ==> i + e.used < |s|)
            && var r := Add([e.reply], s[i..i + e.used], [], Scan(options, longs, s, i + e.used, e.rest));
               && Scan(options, longs, s, i, [c] + rest) == r
               && (s[i] == "-" + ([c] + rest) ==> Scan(options, longs, s, i, "") == r)
  {
    hide Scan, ScanOne, ParseOne, Says, Letters, Add, LetterAnswer;
    var place := [c] + rest;
    LetterReply(Letters(options), longs, c, kind, rest, s[i + 1..]);
    ScanOneIs(options, longs, s, i, place, LetterAnswer(Letters(options), kind, c, rest, s[i + 1..]));
    ScanPlace(options, longs, s, i, place);
    if s[i] == "-" + place {
      assert place[0] == c;
      StartsOption(options, longs, s, i, place);
    }
  }

  /** A letter that stands for a long option, in a command line. */
  lemma WideScan(options: string, longs: seq<Long>, s: seq<string>, i: nat, c: char, name: string,
                 given: Option<string>, m: Match)
    requires Sane(longs) && i < |s| && Says(Letters(options), c, Wide) && '=' !in name && Means(longs, name, m)
    requires Spelt(name, given) != ""
    ensures var (word, next) := (Spelt(name, given), s[i + 1..]);
            && (s[i] == "-" + ([c] + word) ==>
                  var e := LongAnswer(Letters(options), longs, m, given, next);
                  && i + e.used <= |s|
                  && Scan(options, longs, s, i, "")
                       == Add([e.reply], s[i..i + e.used], [], Scan(options, longs, s, i + e.used, "")))
            && (s[i] == "-" + [c] && next != [] && next[0] == word ==>
                  var e := LongAnswer(Letters(options), longs, m, given, next[1..]);
                  && i + 1 + e.used <= |s|
                  && Scan(options, longs, s, i, "")
                       == Add([e.reply], s[i..i + 1 + e.used], [], Scan(options, longs, s, i + 1 + e.used, "")))
  {
    hide Scan, ScanOne, ParseOne, Means, Letters, Add, LongAnswer, Spelt;
    var (word, next, ls) := (Spelt(name, given), s[i + 1..], Letters(options));
    assert c == 'W' by { WideIsW(ls, c); }
    hide Says;
    WideReply(ls, longs, c, name, given, next, m);
    if s[i] == "-" + ([c] + word) {
      StartsOption(options, longs, s, i, [c] + word);
      LongRest(ls, longs, m, given, next);
      ScanOneIs(options, longs, s, i, [c] + word, LongAnswer(ls, longs, m, given, next));
    }
    if s[i] == "-" + [c] && next != [] && next[0] == word {
      var e := LongAnswer(ls, longs, m, given, next[1..]);
      StartsOption(options, longs, s, i, [c]);
      LongRest(ls, longs, m, given, next[1..]);
      ScanOneIs(options, longs, s, i, [c], e.(used := e.used + 1));
    }
  }

  /** A word that is not an option: by the first character of the option string it is passed over, given as
      the argument of an option 1, or ends the options. */
  lemma OperandScan(options: string, longs: seq<Long>, s: seq<string>, i: nat)
    requires Sane(longs) && i < |s| && (s[i] == "-" || !("-" <= s[i]))
    ensures var (r, rest) := (Scan(options, longs, s, i, ""), Scan(options, longs, s, i + 1, ""));
            && ("+" <= options ==> r == Parsed([], [], [], s[i..]) && Letters(options) == options[1..])
            && ("-" <= options ==>
                  && Letters(options) == options[1..]
                  && r == Parsed([Reply(1, Some(s[i]), None)] + rest.replies, [s[i]] + rest.opts, rest.nons, rest.rest))
            && (!("+" <= options) && !("-" <= options) ==>
                  && Letters(options) == options
                  && r == Parsed(rest.replies, rest.opts, [s[i]] + rest.nons, rest.rest))
  {
    var rest := Scan(options, longs, s, i + 1, "");
    ReadsOperand(options, longs, s, i, s[i]);
    hide Scan;
    assert [] + rest.replies == rest.replies && [] + rest.opts == rest.opts && [] + rest.nons == rest.nons;
  }

  lemma WideIsW(letters: string, c: char)
    requires Says(letters, c, Wide)
    ensures c == 'W'
  {}
}
