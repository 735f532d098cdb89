/** The permuting argument scanner of src/getopt_long.c: getopt_internal, getopt and getopt_long. */
module Getopt {
  import opened Options
  import opened BlockExchange

  /** What the long-option table says about the text behind "--"; module LongOptions finds it out. */
  datatype LongMatch =
    | NoMatch
    | ArgNotAllowed
    | Complete(inlineArg: Option<string>)
    | NeedsNext

  datatype LongTable = NoLongOptions | LongOptions(lookup: string -> LongMatch)

  datatype Config = Config(options: string, posixlyCorrect: bool, longs: LongTable) {
    predicate IgnoreFirst() { options != "" && (options[0] == '-' || options[0] == '+') }
    predicate InOrderMode() { !posixlyCorrect && options != "" && options[0] == '-' }
    predicate PermuteMode() { !posixlyCorrect && !IgnoreFirst() }
  }

  /** What one call of getopt or getopt_long reports. */
  datatype Event =
    | Letter(c: char, arg: Option<string>)
    | BadLetter(c: char)
    | MissingArg(c: char)
    | InOrder(arg0: string)
    | Long(text: string, arg: Option<string>)
    | BadLong(text: string)
    | MissingLongArg(text: string)
    | UnwantedArg(text: string)

  // ----- the option string

  datatype Kind = Unknown | NoArg | NeedsArg | MayHaveArg

  function Find(s: string, c: char): (i: nat)
    ensures i <= |s| && (i < |s| ==> s[i] == c) && forall k :: 0 <= k < i ==> s[k] != c
  {
    if s == "" || s[0] == c then 0 else 1 + Find(s[1..], c)
  }

  function KindOf(cfg: Config, c: char): Kind {
    var letters := if cfg.IgnoreFirst() then cfg.options[1..] else cfg.options;
    var i := Find(letters, c);
    if c == ':' || i == |letters| then Unknown
    else if i + 1 == |letters| || letters[i + 1] != ':' then NoArg
    else if i + 2 < |letters| && letters[i + 2] == ':' then MayHaveArg
    else NeedsArg
  }

  // ----- the reference: a recursive reading of the original vector

  /** The options with their arguments, the other arguments, and the reports, each in original order. */
  datatype Parsed = Parsed(opts: seq<string>, rest: seq<string>, events: seq<Event>)

  predicate IsNonOption(a: string) { |a| < 2 || a[0] != '-' }

  predicate IsDashes(a: string) { |a| >= 2 && a[0] == '-' && a[1] == '-' }

  function Prepend(opts: seq<string>, e: Event, p: Parsed): Parsed {
    Parsed(opts + p.opts, p.rest, [e] + p.events)
  }

  /** Reads the arguments; `letters` are the letters of args[0] still to be read, if any. */
  function Parse(cfg: Config, letters: string, args: seq<string>): Parsed
    requires letters != "" ==> args != []
    decreases |args|, letters == "", |letters|, 0
  {
    if letters != "" then
      var c, more := letters[0], letters[1..];
      match KindOf(cfg, c)
      case Unknown => NextLetter(cfg, more, args, BadLetter(c))
      case NoArg => NextLetter(cfg, more, args, Letter(c, None))
      case NeedsArg =>
        if more != "" then Prepend(args[..1], Letter(c, Some(more)), Parse(cfg, "", args[1..]))
        else if |args| >= 2 then Prepend(args[..2], Letter(c, Some(args[1])), Parse(cfg, "", args[2..]))
        else Prepend(args[..1], MissingArg(c), Parse(cfg, "", args[1..]))
      case MayHaveArg =>
        Prepend(args[..1], Letter(c, if more != "" then Some(more) else None), Parse(cfg, "", args[1..]))
    else if args == [] then Parsed([], [], [])
    else if IsNonOption(args[0]) then
      if cfg.InOrderMode() then Prepend(args[..1], InOrder(args[0]), Parse(cfg, "", args[1..]))
      else if !cfg.PermuteMode() then Parsed([], args, [])
      else
        var p := Parse(cfg, "", args[1..]);
        Parsed(p.opts, args[..1] + p.rest, p.events)
    else if IsDashes(args[0]) then ParseDashes(cfg, args)
    else Parse(cfg, args[0][1..], args)
  }

  function NextLetter(cfg: Config, more: string, args: seq<string>, e: Event): Parsed
    requires args != []
    decreases |args|, false, |more|, 1
  {
    if more == "" then Prepend(args[..1], e, Parse(cfg, "", args[1..]))
    else Prepend([], e, Parse(cfg, more, args))
  }

  function ParseDashes(cfg: Config, args: seq<string>): Parsed
    requires args != [] && IsDashes(args[0])
    decreases |args|, false
  {
    var text := args[0][2..];
    if cfg.longs.NoLongOptions? || text == "" then Parsed(args[..1], args[1..], [])
    else
      match cfg.longs.lookup(text)
      case NoMatch => Prepend(args[..1], BadLong(text), Parse(cfg, "", args[1..]))
      case ArgNotAllowed => Prepend(args[..1], UnwantedArg(text), Parse(cfg, "", args[1..]))
      case Complete(a) => Prepend(args[..1], Long(text, a), Parse(cfg, "", args[1..]))
      case NeedsNext =>
        if |args| >= 2 then Prepend(args[..2], Long(text, Some(args[1])), Parse(cfg, "", args[2..]))
        else Prepend(args[..1], MissingLongArg(text), Parse(cfg, "", args[1..]))
  }

  /** all is a merge of a and b that keeps the order within each. */
  ghost predicate Interleaves(all: seq<string>, a: seq<string>, b: seq<string>) {
    if all == [] then a == [] && b == []
    else
      || (a != [] && a[0] == all[0] && Interleaves(all[1..], a[1..], b))
      || (b != [] && b[0] == all[0] && Interleaves(all[1..], a, b[1..]))
  }

  lemma {:induction false} InterleavesFront(front: seq<string>, all: seq<string>, a: seq<string>, b: seq<string>)
    requires Interleaves(all, a, b)
    ensures Interleaves(front + all, front + a, b)
  {
    if front == [] {
      assert front + all == all && front + a == a;
    } else {
      InterleavesFront(front[1..], all, a, b);
      assert (front + all)[1..] == front[1..] + all && (front + a)[1..] == front[1..] + a;
    }
  }

  lemma {:induction false} InterleavesRest(b: seq<string>)
    ensures Interleaves(b, [], b)
  {
    if b != [] { InterleavesRest(b[1..]); }
  }

  /** The reference reading is a stable partition: nothing is lost, invented or reordered within the
      options or within the other arguments. */
  lemma {:induction false} ParseIsStablePartition(cfg: Config, letters: string, args: seq<string>)
    requires letters != "" ==> args != []
    ensures var p := Parse(cfg, letters, args); Interleaves(args, p.opts, p.rest)
    decreases |args|, letters == "", |letters|
  {
    if args == [] {
    } else if letters != "" {
      LettersPartition(cfg, letters, args);
    } else if IsNonOption(args[0]) {
      ParseIsStablePartition(cfg, "", args[1..]);
      FrontStep(cfg, args, 1);
      InterleavesRest(args);
      var p := Parse(cfg, "", args[1..]);
      assert (args[..1] + p.rest)[1..] == p.rest;
    } else if IsDashes(args[0]) {
      DashesPartition(cfg, args);
    } else {
      ParseIsStablePartition(cfg, args[0][1..], args);
    }
  }

  lemma {:induction false} LettersPartition(cfg: Config, letters: string, args: seq<string>)
    requires letters != "" && args != []
    ensures var p := Parse(cfg, letters, args); Interleaves(args, p.opts, p.rest)
    decreases |args|, false, |letters|, 0
  {
    hide Interleaves, KindOf;
    ParseIsStablePartition(cfg, "", args[1..]);
    FrontStep(cfg, args, 1);
    if |args| >= 2 {
      ParseIsStablePartition(cfg, "", args[2..]);
      FrontStep(cfg, args, 2);
    }
    if letters[1..] != "" {
      ParseIsStablePartition(cfg, letters[1..], args);
      assert [] + Parse(cfg, letters[1..], args).opts == Parse(cfg, letters[1..], args).opts;
    }
  }

  lemma {:induction false} DashesPartition(cfg: Config, args: seq<string>)
    requires args != [] && IsDashes(args[0])
    ensures var p := ParseDashes(cfg, args); Interleaves(args, p.opts, p.rest)
    decreases |args|, false, 0, 0
  {
    hide Interleaves;
    ParseIsStablePartition(cfg, "", args[1..]);
    FrontStep(cfg, args, 1);
    if |args| >= 2 {
      ParseIsStablePartition(cfg, "", args[2..]);
      FrontStep(cfg, args, 2);
    }
    InterleavesRest(args[1..]);
    InterleavesFront(args[..1], args[1..], [], args[1..]);
    assert args[..1] + args[1..] == args && args[..1] + [] == args[..1];
  }

  lemma FrontStep(cfg: Config, args: seq<string>, n: nat)
    requires n <= |args|
    requires var p := Parse(cfg, "", args[n..]); Interleaves(args[n..], p.opts, p.rest)
    ensures var p := Parse(cfg, "", args[n..]); Interleaves(args, args[..n] + p.opts, p.rest)
  {
    var p := Parse(cfg, "", args[n..]);
    InterleavesFront(args[..n], args[n..], p.opts, p.rest);
    assert args[..n] + args[n..] == args;
  }

  // ----- the scanner's position as a value

  /** Where a scan stands: the vector, the index and unread letters of the current argument, and the
      block of skipped arguments (-1 when there is none, or when no option follows it yet). */
  datatype Position = Position(argv: seq<string>, optind: int, letters: string, nonoptStart: int, nonoptEnd: int)

  ghost predicate Ordered(p: Position) {
    && 1 <= p.optind <= |p.argv|
    && (p.letters != "" ==> p.optind < |p.argv|)
    && (p.nonoptStart == -1 ==> p.nonoptEnd == -1)
    && (p.nonoptStart != -1 ==> 1 <= p.nonoptStart)
    && (p.nonoptEnd != -1 ==> p.nonoptStart < p.nonoptEnd <= p.optind)
    && (p.nonoptStart != -1 && p.nonoptEnd == -1 ==> p.nonoptStart < p.optind && p.letters == "")
  }

  /** Options already in place, skipped arguments, options found behind them. */
  function Before(p: Position): seq<string>
    requires Ordered(p)
  {
    if p.nonoptStart == -1 then p.argv[1..p.optind] else p.argv[1..p.nonoptStart]
  }

  function Skipped(p: Position): seq<string>
    requires Ordered(p)
  {
    if p.nonoptStart == -1 then []
    else p.argv[p.nonoptStart..if p.nonoptEnd == -1 then p.optind else p.nonoptEnd]
  }

  function Behind(p: Position): seq<string>
    requires Ordered(p)
  {
    if p.nonoptEnd == -1 then [] else p.argv[p.nonoptEnd..p.optind]
  }

  /** What the whole vector will turn out to be, given the position. */
  function Outlook(cfg: Config, p: Position): Parsed
    requires Ordered(p)
  {
    var q := Parse(cfg, p.letters, p.argv[p.optind..]);
    Parsed(Before(p) + Behind(p) + q.opts, Skipped(p) + q.rest, q.events)
  }

  /** The vector once the skipped block has been moved behind the options. */
  function Settled(p: Position): seq<string>
    requires Ordered(p)
  {
    p.argv[..1] + Before(p) + Behind(p) + Skipped(p) + p.argv[p.optind..]
  }

  /** A non-option that follows earlier skipped ones directly joins their block. */
  lemma SkipMore(cfg: Config, p: Position)
    requires Ordered(p) && p.letters == "" && p.optind < |p.argv| && p.nonoptEnd == -1
    requires IsNonOption(p.argv[p.optind]) && !cfg.InOrderMode() && cfg.PermuteMode()
    ensures var p' := p.(optind := p.optind + 1, nonoptStart := if p.nonoptStart == -1 then p.optind else p.nonoptStart);
      Ordered(p') && Outlook(cfg, p') == Outlook(cfg, p)
  {
    var p' := p.(optind := p.optind + 1, nonoptStart := if p.nonoptStart == -1 then p.optind else p.nonoptStart);
    var args := p.argv[p.optind..];
    assert args[1..] == p'.argv[p'.optind..];
    var q := Parse(cfg, "", args[1..]);
    assert Skipped(p') == Skipped(p) + args[..1];
    assert Skipped(p) + (args[..1] + q.rest) == Skipped(p') + q.rest;
  }

  /** Moving the skipped block behind the options found after it changes nothing of the outlook. */
  lemma AfterPermute(cfg: Config, p: Position, argv': seq<string>)
    requires Ordered(p) && p.letters == "" && p.nonoptEnd != -1 && p.nonoptEnd < p.optind
    requires argv' == p.argv[..p.nonoptStart] + p.argv[p.nonoptEnd..p.optind]
                    + p.argv[p.nonoptStart..p.nonoptEnd] + p.argv[p.optind..]
    ensures var p' := p.(argv := argv', nonoptStart := p.optind - (p.nonoptEnd - p.nonoptStart), nonoptEnd := -1);
      && Ordered(p') && Outlook(cfg, p') == Outlook(cfg, p) && argv' == Settled(p) == Settled(p')
      && argv'[p.optind..] == p.argv[p.optind..]
  {
    var p' := p.(argv := argv', nonoptStart := p.optind - (p.nonoptEnd - p.nonoptStart), nonoptEnd := -1);
    assert argv'[p.optind..] == p.argv[p.optind..];
    assert Before(p') == Before(p) + Behind(p);
    assert Skipped(p') == Skipped(p);
    assert p.argv[..1] + Before(p) == p.argv[..p.nonoptStart];
  }

  /** An option ends the block of skipped arguments. */
  lemma EndBlock(cfg: Config, p: Position)
    requires Ordered(p) && p.letters == "" && p.nonoptStart != -1 && p.nonoptEnd == -1
    ensures var p' := p.(nonoptEnd := p.optind);
      Ordered(p') && Outlook(cfg, p') == Outlook(cfg, p)
  {
    var p' := p.(nonoptEnd := p.optind);
    assert Behind(p') == [];
  }

  /** Reading the first n remaining arguments as options with a report e. */
  lemma Consume(cfg: Config, p: Position, n: nat, e: Event, p': Position)
    requires Ordered(p) && p.optind + n <= |p.argv| && (p.nonoptStart != -1 ==> p.nonoptEnd != -1)
    requires Parse(cfg, p.letters, p.argv[p.optind..])
          == Prepend(p.argv[p.optind..][..n], e, Parse(cfg, "", p.argv[p.optind..][n..]))
    requires p' == p.(optind := p.optind + n, letters := "") && Ordered(p')
    ensures Outlook(cfg, p) == Parsed(Outlook(cfg, p').opts, Outlook(cfg, p').rest, [e] + Outlook(cfg, p').events)
  {
    hide Parse;
    var args := p.argv[p.optind..];
    assert args[n..] == p'.argv[p'.optind..];
    var q := Parse(cfg, "", args[n..]);
    PlacedGrows(p, n);
    hide Before, Behind;
    var b := Before(p) + Behind(p);
    assert Before(p') + Behind(p') == b + args[..n];
    assert b + (args[..n] + q.opts) == (b + args[..n]) + q.opts;
  }

  lemma PlacedGrows(p: Position, n: nat)
    requires Ordered(p) && p.optind + n <= |p.argv| && (p.nonoptStart != -1 ==> p.nonoptEnd != -1)
    ensures var p' := p.(optind := p.optind + n, letters := "");
      && Ordered(p') && Skipped(p') == Skipped(p)
      && Before(p') + Behind(p') == Before(p) + Behind(p) + p.argv[p.optind..][..n]
  {
    var p' := p.(optind := p.optind + n, letters := "");
    if p.nonoptEnd == -1 {
      assert Before(p') == Before(p) + p.argv[p.optind..][..n];
    } else {
      assert Behind(p') == Behind(p) + p.argv[p.optind..][..n];
    }
  }

  /** A position between two calls. */
  ghost predicate Steady(cfg: Config, p: Position) {
    && Ordered(p)
    && (p.nonoptStart != -1 ==> p.nonoptEnd != -1 && cfg.PermuteMode())
    && (p.letters == "" && p.nonoptEnd != -1 ==> p.nonoptEnd < p.optind)
  }

  /** p' is where the scan stands after reporting e. */
  ghost predicate Reported(cfg: Config, p: Position, e: Event, p': Position) {
    && Ordered(p) && Steady(cfg, p') && |p'.argv| == |p.argv| && p'.argv[0] == p.argv[0]
    && Outlook(cfg, p) == Parsed(Outlook(cfg, p').opts, Outlook(cfg, p').rest, [e] + Outlook(cfg, p').events)
  }

  /** The scan is over: options first, then the rest, and optind at the first of the rest. */
  ghost predicate Finished(cfg: Config, p: Position, argv': seq<string>, optind': int) {
    && Ordered(p)
    && var q := Outlook(cfg, p);
       q.events == [] && argv' == p.argv[..1] + q.opts + q.rest && optind' == 1 + |q.opts|
  }

  lemma {:induction false} InterleavesMultiset(all: seq<string>, a: seq<string>, b: seq<string>)
    requires Interleaves(all, a, b)
    ensures multiset(all) == multiset(a) + multiset(b)
  {
    if all != [] {
      assert all == [all[0]] + all[1..];
      if a != [] && a[0] == all[0] && Interleaves(all[1..], a[1..], b) {
        assert a == [a[0]] + a[1..];
        InterleavesMultiset(all[1..], a[1..], b);
      } else {
        assert b == [b[0]] + b[1..];
        InterleavesMultiset(all[1..], a, b[1..]);
      }
    }
  }

  /** At every position the vector is a permutation of what it will finally be. */
  lemma OutlookPermutes(cfg: Config, p: Position)
    requires Ordered(p)
    ensures multiset(p.argv[1..]) == multiset(Outlook(cfg, p).opts) + multiset(Outlook(cfg, p).rest)
  {
    hide Parse, Interleaves;
    var args := p.argv[p.optind..];
    var q := Parse(cfg, p.letters, args);
    ParseIsStablePartition(cfg, p.letters, args);
    InterleavesMultiset(args, q.opts, q.rest);
    ReadPartPermutes(p);
    hide Before, Behind, Skipped;
    assert p.argv[1..] == p.argv[1..p.optind] + args;
  }

  lemma ReadPartPermutes(p: Position)
    requires Ordered(p)
    ensures multiset(p.argv[1..p.optind]) == multiset(Before(p)) + multiset(Behind(p)) + multiset(Skipped(p))
  {
    var all := p.argv[1..p.optind];
    if p.nonoptStart != -1 {
      assert all == Before(p) + Skipped(p) + Behind(p);
    }
  }

  /** No call loses, duplicates or invents an argument. */
  lemma ReportedPermutes(cfg: Config, p: Position, e: Event, p': Position)
    requires Reported(cfg, p, e, p')
    ensures multiset(p'.argv) == multiset(p.argv)
  {
    hide Outlook, Parse;
    OutlookPermutes(cfg, p);
    OutlookPermutes(cfg, p');
    assert p.argv == [p.argv[0]] + p.argv[1..] && p'.argv == [p'.argv[0]] + p'.argv[1..];
  }

  lemma ReportedByConsuming(cfg: Config, p: Position, n: nat, e: Event)
    requires Steady(cfg, p) && n >= 1 && p.optind + n <= |p.argv|
    requires Parse(cfg, p.letters, p.argv[p.optind..])
          == Prepend(p.argv[p.optind..][..n], e, Parse(cfg, "", p.argv[p.optind..][n..]))
    ensures Reported(cfg, p, e, p.(optind := p.optind + n, letters := ""))
  {
    hide Parse;
    Consume(cfg, p, n, e, p.(optind := p.optind + n, letters := ""));
  }

  /** The end of the vector: nothing more to read. */
  lemma FinishedAtEnd(cfg: Config, p: Position)
    requires Ordered(p) && p.letters == "" && p.optind == |p.argv|
    ensures Finished(cfg, p, Settled(p), p.optind - |Skipped(p)|)
  {
    assert p.argv[p.optind..] == [];
    var q := Outlook(cfg, p);
    assert Settled(p) == p.argv[..1] + q.opts + q.rest;
    assert |Settled(p)| == |p.argv|;
  }

  lemma SettledWithoutBlock(p: Position)
    requires Ordered(p) && p.nonoptEnd == -1
    ensures Settled(p) == p.argv && |Skipped(p)| == (if p.nonoptStart == -1 then 0 else p.optind - p.nonoptStart)
  {
    if p.nonoptStart == -1 {
      assert p.argv[..1] + p.argv[1..p.optind] + p.argv[p.optind..] == p.argv;
    } else {
      assert p.argv[..1] + p.argv[1..p.nonoptStart] + p.argv[p.nonoptStart..p.optind] + p.argv[p.optind..] == p.argv;
    }
  }

  lemma InOrderStep(cfg: Config, p: Position)
    requires Steady(cfg, p) && p.letters == "" && p.optind < |p.argv|
    requires IsNonOption(p.argv[p.optind]) && cfg.InOrderMode()
    ensures Reported(cfg, p, InOrder(p.argv[p.optind]), p.(optind := p.optind + 1))
  {
    ReportedByConsuming(cfg, p, 1, InOrder(p.argv[p.optind]));
  }

  lemma StopStep(cfg: Config, p: Position)
    requires Ordered(p) && p.letters == "" && p.optind < |p.argv| && p.nonoptStart == -1
    requires IsNonOption(p.argv[p.optind]) && !cfg.InOrderMode() && !cfg.PermuteMode()
    ensures Finished(cfg, p, p.argv, p.optind)
  {
    assert p.argv == p.argv[..1] + p.argv[1..p.optind] + p.argv[p.optind..];
  }

  /** Two positions of one scan with the same future. */
  ghost predicate SameScan(cfg: Config, p: Position, q: Position) {
    && Ordered(p) && Ordered(q) && |p.argv| == |q.argv| && p.argv[0] == q.argv[0]
    && Outlook(cfg, p) == Outlook(cfg, q)
  }

  lemma FromSameScan(cfg: Config, start: Position, p: Position)
    requires SameScan(cfg, start, p)
    ensures forall e, p' :: Reported(cfg, p, e, p') ==> Reported(cfg, start, e, p')
    ensures forall argv', optind' :: Finished(cfg, p, argv', optind') ==> Finished(cfg, start, argv', optind')
  {
    assert start.argv[..1] == p.argv[..1];
  }

  /** A letter of a cluster that is not the last one leaves the rest of the cluster to be read. */
  lemma ClusterStep(cfg: Config, p: Position, e: Event)
    requires Steady(cfg, p) && |p.letters| >= 2
    requires Parse(cfg, p.letters, p.argv[p.optind..])
          == Prepend([], e, Parse(cfg, p.letters[1..], p.argv[p.optind..]))
    ensures Reported(cfg, p, e, p.(letters := p.letters[1..]))
  {
    hide Parse;
    var p' := p.(letters := p.letters[1..]);
    var q := Parse(cfg, p'.letters, p'.argv[p'.optind..]);
    assert [] + q.opts == q.opts;
  }

  /** What reading the first letter reports and how many arguments it uses up (0: the cluster goes on). */
  function LetterEffect(cfg: Config, letters: string, next: Option<string>): (r: (Event, int))
    requires letters != ""
    ensures 0 <= r.1 <= if next.Some? then 2 else 1
  {
    var c, more := letters[0], letters[1..];
    match KindOf(cfg, c)
    case Unknown => (BadLetter(c), if more == "" then 1 else 0)
    case NoArg => (Letter(c, None), if more == "" then 1 else 0)
    case NeedsArg =>
      if more != "" then (Letter(c, Some(more)), 1)
      else if next.Some? then (Letter(c, next), 2)
      else (MissingArg(c), 1)
    case MayHaveArg => (Letter(c, if more != "" then Some(more) else None), 1)
  }

  function NextArg(argv: seq<string>, k: int): Option<string>
    requires 0 <= k < |argv|
  {
    if k + 1 < |argv| then Some(argv[k + 1]) else None
  }

  /** The position after an effect that used up n arguments (0: one letter of a cluster). */
  function Moved(p: Position, n: int): Position
    requires n == 0 ==> p.letters != ""
  {
    if n == 0 then p.(letters := p.letters[1..]) else p.(optind := p.optind + n, letters := "")
  }

  lemma LetterStep(cfg: Config, p: Position)
    requires Steady(cfg, p) && p.letters != ""
    ensures var r := LetterEffect(cfg, p.letters, NextArg(p.argv, p.optind));
      Reported(cfg, p, r.0, Moved(p, r.1))
  {
    hide KindOf, Reported;
    var (e, n) := LetterEffect(cfg, p.letters, NextArg(p.argv, p.optind));
    if n == 0 {
      ClusterStep(cfg, p, e);
    } else {
      ReportedByConsuming(cfg, p, n, e);
    }
  }

  /** Behind "--" every argument belongs to the rest. */
  lemma FinishedAtDashes(cfg: Config, p: Position)
    requires Ordered(p) && p.letters == "" && p.optind < |p.argv| && (p.nonoptStart != -1 ==> p.nonoptEnd != -1)
    requires IsDashes(p.argv[p.optind]) && (cfg.longs.NoLongOptions? || |p.argv[p.optind]| == 2)
    ensures var p1 := p.(optind := p.optind + 1);
      Ordered(p1) && Finished(cfg, p, Settled(p1), p1.optind - |Skipped(p1)|)
  {
    var p1 := p.(optind := p.optind + 1);
    var q := Outlook(cfg, p);
    var args := p.argv[p.optind..];
    assert Parse(cfg, "", args) == Parsed(args[..1], args[1..], []);
    assert Before(p1) + Behind(p1) == Before(p) + Behind(p) + args[..1];
    assert args[1..] == p1.argv[p1.optind..];
    assert Settled(p1) == p.argv[..1] + q.opts + q.rest;
    assert |Settled(p1)| == |p.argv|;
  }

  function LongEffect(cfg: Config, text: string, next: Option<string>): (r: (Event, int))
    requires cfg.longs.LongOptions?
    ensures 1 <= r.1 <= if next.Some? then 2 else 1
  {
    match cfg.longs.lookup(text)
    case NoMatch => (BadLong(text), 1)
    case ArgNotAllowed => (UnwantedArg(text), 1)
    case Complete(a) => (Long(text, a), 1)
    case NeedsNext => if next.Some? then (Long(text, next), 2) else (MissingLongArg(text), 1)
  }

  lemma LongStep(cfg: Config, p: Position)
    requires Ordered(p) && p.letters == "" && p.optind < |p.argv|
    requires p.nonoptStart != -1 ==> p.nonoptEnd != -1 && cfg.PermuteMode()
    requires IsDashes(p.argv[p.optind]) && cfg.longs.LongOptions? && |p.argv[p.optind]| > 2
    ensures var r := LongEffect(cfg, p.argv[p.optind][2..], NextArg(p.argv, p.optind));
      Reported(cfg, p, r.0, Moved(p, r.1))
  {
    hide Outlook;
    var (e, n) := LongEffect(cfg, p.argv[p.optind][2..], NextArg(p.argv, p.optind));
    var args := p.argv[p.optind..];
    assert Parse(cfg, "", args) == ParseDashes(cfg, args);
    Consume(cfg, p, n, e, p.(optind := p.optind + n, letters := ""));
  }

  // ----- behind "--"

  /** An argument that ends the options. */
  predicate Terminates(cfg: Config, a: string) {
    IsDashes(a) && (cfg.longs.NoLongOptions? || |a| == 2)
  }

  /** The reading gets to args[k] as the next argument to look at: it does not stop before, and no option
      takes args[k] as its argument. */
  ghost predicate Arrives(cfg: Config, letters: string, args: seq<string>, k: nat)
    requires letters != "" ==> args != []
    decreases |args|, letters == "", |letters|
  {
    if letters != "" then
      var n := LetterEffect(cfg, letters, NextArg(args, 0)).1;
      if n == 0 then |letters| > 1 && Arrives(cfg, letters[1..], args, k) else n <= k && Arrives(cfg, "", args[n..], k - n)
    else if k == 0 then true
    else if args == [] || Terminates(cfg, args[0]) then false
    else if IsNonOption(args[0]) then (cfg.InOrderMode() || cfg.PermuteMode()) && Arrives(cfg, "", args[1..], k - 1)
    else if IsDashes(args[0]) then
      var n := LongEffect(cfg, args[0][2..], NextArg(args, 0)).1;
      n <= k && Arrives(cfg, "", args[n..], k - n)
    else Arrives(cfg, args[0][1..], args, k)
  }

  ghost predicate EndsWith(s: seq<string>, tail: seq<string>) {
    |tail| <= |s| && s[|s| - |tail|..] == tail
  }

  lemma EndsWithMore(front: seq<string>, s: seq<string>, tail: seq<string>)
    requires EndsWith(s, tail)
    ensures EndsWith(front + s, tail)
  {
  }

  /** Every argument behind the "--" that ends the options belongs to the rest, at its end and in order, and
      the "--" itself is the last of the options. */
  lemma {:induction false} BehindDashes(cfg: Config, letters: string, args: seq<string>, k: nat)
    requires letters != "" ==> args != []
    requires Arrives(cfg, letters, args, k) && k < |args| && Terminates(cfg, args[k])
    ensures var p := Parse(cfg, letters, args); EndsWith(p.rest, args[k + 1..]) && EndsWith(p.opts, [args[k]])
    decreases |args|, letters == "", |letters|
  {
    if letters != "" {
      BehindLetters(cfg, letters, args, k);
    } else if k == 0 {
      assert Parse(cfg, "", args) == Parsed(args[..1], args[1..], []);
    } else if IsNonOption(args[0]) {
      BehindLater(cfg, args, 1, k);
      EndsWithMore(args[..1], Parse(cfg, "", args[1..]).rest, args[k + 1..]);
      hide EndsWith;
    } else if IsDashes(args[0]) {
      var n := LongEffect(cfg, args[0][2..], NextArg(args, 0)).1;
      BehindLater(cfg, args, n, k);
      hide EndsWith;
    } else {
      hide EndsWith;
      BehindDashes(cfg, args[0][1..], args, k);
    }
  }

  lemma {:induction false} BehindLetters(cfg: Config, letters: string, args: seq<string>, k: nat)
    requires letters != "" && args != []
    requires Arrives(cfg, letters, args, k) && k < |args| && Terminates(cfg, args[k])
    ensures var p := Parse(cfg, letters, args); EndsWith(p.rest, args[k + 1..]) && EndsWith(p.opts, [args[k]])
    decreases |args|, false, |letters|, 0
  {
    hide KindOf, EndsWith, IsNonOption, IsDashes, Terminates;
    var n := LetterEffect(cfg, letters, NextArg(args, 0)).1;
    if n == 0 {
      BehindDashes(cfg, letters[1..], args, k);
      EndsWithMore([], Parse(cfg, letters[1..], args).opts, [args[k]]);
    } else {
      BehindLater(cfg, args, n, k);
    }
  }

  lemma {:induction false} BehindLater(cfg: Config, args: seq<string>, n: nat, k: nat)
    requires 1 <= n <= k < |args| && Arrives(cfg, "", args[n..], k - n) && Terminates(cfg, args[k])
    ensures var p := Parse(cfg, "", args[n..]);
      EndsWith(p.rest, args[k + 1..]) && EndsWith(p.opts, [args[k]]) && EndsWith(args[..n] + p.opts, [args[k]])
    decreases |args|, false, 0, 0
  {
    hide *;
    assert args[n..][k - n] == args[k];
    BehindDashes(cfg, "", args[n..], k - n);
    assert args[n..][k - n + 1..] == args[k + 1..];
    EndsWithMore(args[..n], Parse(cfg, "", args[n..]).opts, [args[k]]);
  }

  datatype Status = Ended | Interim(e: Event) | AtOption | AtDashes

  class Scanner {
    const cfg: Config
    const nargv: array<string>
    var optind: int
    var place: string
    var nonoptStart: int
    var nonoptEnd: int
    var optarg: Option<string>
    var optreset: bool

    /** The position the next call starts from; optind 0 and optreset restart the scan. */
    ghost function At(): Position
      reads this, nargv
    {
      Position(nargv[..], if optind == 0 then 1 else optind,
               if optreset then "" else place,
               if optreset then -1 else nonoptStart,
               if optreset then -1 else nonoptEnd)
    }

    ghost predicate Valid()
      reads this, nargv
    {
      nargv.Length >= 1 && Steady(cfg, At())
    }

    constructor (cfg: Config, nargv: array<string>)
      requires nargv.Length >= 1
      ensures Valid() && this.cfg == cfg && this.nargv == nargv
      ensures At() == Position(nargv[..], 1, "", -1, -1)
    {
      this.cfg, this.nargv := cfg, nargv;
      optind, place, nonoptStart, nonoptEnd := 1, "", -1, -1;
      optarg, optreset := None, false;
    }

    /** Moves the skipped block behind the options found after it. */
    method MoveBlock()
      requires nargv.Length >= 1 && !optreset && optind >= 1 && place == ""
      requires Ordered(At()) && nonoptEnd != -1 && nonoptEnd < optind
      modifies nargv
      ensures nargv[..] == Settled(old(At())) && nargv[optind..] == old(nargv[optind..])
      ensures var p' := At().(nonoptStart := optind - (nonoptEnd - nonoptStart), nonoptEnd := -1);
        Ordered(p') && Outlook(cfg, p') == Outlook(cfg, old(At()))
    {
      ghost var p := At();
      PermuteArgs(nonoptStart, nonoptEnd, optind, nargv);
      AfterPermute(cfg, p, nargv[..]);
    }

    /** The end of the argument vector: settle the skipped block and point optind at it. */
    method Finish()
      requires nargv.Length >= 1 && !optreset && optind >= 1 && place == ""
      requires Ordered(At()) && optind == nargv.Length && (nonoptEnd != -1 ==> nonoptEnd < optind)
      modifies this`optind, this`nonoptStart, this`nonoptEnd, nargv
      ensures Finished(cfg, old(At()), nargv[..], optind)
      ensures nonoptStart == nonoptEnd == -1
    {
      ghost var p := At();
      FinishedAtEnd(cfg, p);
      if nonoptEnd != -1 {
        MoveBlock();
        optind := optind - (nonoptEnd - nonoptStart);
      } else {
        SettledWithoutBlock(p);
        if nonoptStart != -1 {
          optind := nonoptStart;
        }
      }
      nonoptStart, nonoptEnd := -1, -1;
    }

    /** Moves the skipped block up to the current argument, so that it can grow again. */
    method StepBack()
      requires nargv.Length >= 1 && !optreset && optind >= 1 && place == ""
      requires Ordered(At()) && optind < nargv.Length && nonoptEnd != -1 && nonoptEnd < optind
      modifies this`nonoptStart, this`nonoptEnd, nargv
      ensures nonoptEnd == -1 && nargv[0] == old(nargv[0]) && nargv[optind] == old(nargv[optind])
      ensures Ordered(At()) && Outlook(cfg, At()) == Outlook(cfg, old(At()))
    {
      hide Outlook, Parse;
      ghost var p := At();
      MoveBlock();
      nonoptStart := optind - (nonoptEnd - nonoptStart);
      nonoptEnd := -1;
      assert nargv[optind..][0] == p.argv[optind..][0];
      assert nargv[0] == Settled(p)[0];
    }

    /** One non-option in permuting mode: it joins the block of skipped arguments. */
    method SkipOne()
      requires nargv.Length >= 1 && !optreset && optind >= 1 && place == ""
      requires Ordered(At()) && optind < nargv.Length && IsNonOption(nargv[optind])
      requires cfg.PermuteMode() && !cfg.InOrderMode() && (nonoptEnd != -1 ==> nonoptEnd < optind)
      modifies this`optind, this`nonoptStart, this`nonoptEnd, nargv
      ensures optind == old(optind) + 1 && nonoptEnd == -1 && nargv[0] == old(nargv[0])
      ensures Ordered(At()) && Outlook(cfg, At()) == Outlook(cfg, old(At()))
    {
      hide Outlook, Parse;
      if nonoptEnd != -1 {
        StepBack();
      }
      SkipMore(cfg, At());
      if nonoptStart == -1 {
        nonoptStart := optind;
      }
      optind := optind + 1;
    }

    /** The loop at `start`: skips non-options up to the next option, if there is one. */
    method NextArgument() returns (r: Status)
      requires nargv.Length >= 1 && !optreset && optind >= 1 && place == "" && Steady(cfg, At())
      modifies this, nargv
      ensures !optreset && optind >= 1 && place == "" && !r.AtDashes?
      ensures r.Ended? ==> Finished(cfg, old(At()), nargv[..], optind)
      ensures r.Interim? ==> Reported(cfg, old(At()), r.e, At())
      ensures r.AtOption? ==>
        && optind < nargv.Length && !IsNonOption(nargv[optind]) && SameScan(cfg, old(At()), At())
        && (nonoptStart != -1 ==> nonoptEnd != -1 && cfg.PermuteMode())
    {
      ghost var start := At();
      hide Outlook, Parse, Reported, Finished;
      while optind < nargv.Length && IsNonOption(nargv[optind])
        invariant !optreset && optind >= 1 && place == ""
        invariant SameScan(cfg, start, At())
        invariant nonoptStart != -1 ==> cfg.PermuteMode()
        invariant nonoptEnd != -1 ==> nonoptEnd < optind
        decreases nargv.Length - optind
      {
        FromSameScan(cfg, start, At());
        if cfg.InOrderMode() {
          InOrderStep(cfg, At());
          optarg := Some(nargv[optind]);
          optind := optind + 1;
          return Interim(InOrder(nargv[optind - 1]));
        }
        if !cfg.PermuteMode() {
          StopStep(cfg, At());
          return Ended;
        }
        SkipOne();
      }
      FromSameScan(cfg, start, At());
      if optind >= nargv.Length {
        Finish();
        return Ended;
      }
      if nonoptStart != -1 && nonoptEnd == -1 {
        EndBlock(cfg, At());
        nonoptEnd := optind;
      }
      r := AtOption;
    }
  
    /** Reads one letter of the current argument. */
    method TakeLetter() returns (e: Event)
      requires place != "" && 0 <= optind < nargv.Length
      modifies this`optind, this`place, this`optarg
      ensures var r := LetterEffect(cfg, old(place), NextArg(nargv[..], old(optind)));
        && e == r.0 && optind == old(optind) + r.1
        && place == (if r.1 == 0 then old(place)[1..] else "")
    {
      hide KindOf;
      var optchar := place[0];
      place := place[1..];
      var kind := KindOf(cfg, optchar);
      if kind.Unknown? || kind.NoArg? {
        if place == "" {
          optind := optind + 1;
        }
        return if kind.Unknown? then BadLetter(optchar) else Letter(optchar, None);
      }
      optarg := None;
      if place != "" {
        optarg := Some(place);
      } else if kind.NeedsArg? {
        optind := optind + 1;
        if optind >= nargv.Length {
          place := "";
          return MissingArg(optchar);
        }
        optarg := Some(nargv[optind]);
      }
      place := "";
      optind := optind + 1;
      return Letter(optchar, optarg);
    }

    method ReadLetter() returns (e: Event)
      requires nargv.Length >= 1 && !optreset && optind >= 1 && place != "" && Steady(cfg, At())
      modifies this`optind, this`place, this`optarg
      ensures Reported(cfg, old(At()), e, At()) && optind >= 1
    {
      ghost var p := At();
      assert optind < nargv.Length;
      hide Reported, Steady, LetterEffect, Outlook, Parse;
      LetterStep(cfg, p);
      ghost var p' := Moved(p, LetterEffect(cfg, p.letters, NextArg(p.argv, p.optind)).1);
      e := TakeLetter();
      assert nargv[..] == p.argv;
      assert At() == p';
    }

    /** Finds the next argument to read: AtDashes if it starts with "--", AtOption if it is a cluster. */
    method OpenArgument() returns (r: Status)
      requires nargv.Length >= 1 && !optreset && optind >= 1 && place == "" && Steady(cfg, At())
      modifies this, nargv
      ensures !optreset && optind >= 1
      ensures r.Ended? ==> Finished(cfg, old(At()), nargv[..], optind)
      ensures r.Interim? ==> Reported(cfg, old(At()), r.e, At())
      ensures r.AtOption? ==> place != "" && Steady(cfg, At()) && SameScan(cfg, old(At()), At())
      ensures r.AtDashes? ==> Dashed(old(At()))
    {
      ghost var start := At();
      r := NextArgument();
      if r.AtOption? {
        ghost var p := At();
        place := nargv[optind][1..];
        assert At() == p.(letters := place);
        if place[0] == '-' {
          place := place[1..];
          assert At().(letters := "") == p;
          assert place == nargv[optind][2..];
          r := AtDashes;
        } else {
          EnterCluster(cfg, At());
        }
      }
    }

    /** The current argument starts with "--" and place is what follows. */
    ghost predicate Dashed(p: Position)
      reads this, nargv
    {
      && 1 <= optind < nargv.Length && !optreset
      && IsDashes(nargv[optind]) && place == nargv[optind][2..]
      && SameScan(cfg, p, At().(letters := ""))
      && (nonoptStart != -1 ==> nonoptEnd != -1 && cfg.PermuteMode())
    }

    /** getopt_internal: AtDashes stands for its result -2. */
    method Internal() returns (r: Status)
      requires Valid()
      modifies this, nargv
      ensures !optreset && optind >= 1 && !r.AtOption?
      ensures r.Ended? ==> Finished(cfg, old(At()), nargv[..], optind)
      ensures r.Interim? ==> Reported(cfg, old(At()), r.e, At())
      ensures r.AtDashes? ==> Dashed(old(At()))
    {
      ghost var start := At();
      assert start.optind >= 1;
      hide Steady, Reported, Finished, SameScan, Outlook, Parse;
      optarg := None;
      if optind == 0 {
        optind := 1;
      }
      if optreset {
        nonoptStart, nonoptEnd := -1, -1;
      }
      if optreset || place == "" {
        optreset := false;
        place := "";
        assert At() == start;
        r := OpenArgument();
        if !r.AtOption? {
          return;
        }
        FromSameScan(cfg, start, At());
      }
      var e := ReadLetter();
      r := Interim(e);
    }
  
    /** "--" itself: the skipped block goes behind it and the scan is over. */
    method EndOfOptions(ghost p: Position)
      requires Dashed(p) && (cfg.longs.NoLongOptions? || place == "")
      modifies this`optind, this`nonoptStart, this`nonoptEnd, nargv
      ensures Finished(cfg, p, nargv[..], optind)
    {
      ghost var p0 := At().(letters := "");
      FinishedAtDashes(cfg, p0);
      FromSameScan(cfg, p, p0);
      optind := optind + 1;
      ghost var p1 := p0.(optind := optind);
      hide Outlook, Parse, Finished;
      if nonoptEnd != -1 {
        PermuteArgs(nonoptStart, nonoptEnd, optind, nargv);
        AfterPermute(cfg, p1, nargv[..]);
        optind := optind - (nonoptEnd - nonoptStart);
      } else {
        SettledWithoutBlock(p1);
        assert nargv[..] == p1.argv;
      }
      nonoptStart, nonoptEnd := -1, -1;
    }

    /** getopt: reports the next option, or ends the scan. */
    method NextOption() returns (r: Option<Event>)
      requires Valid() && cfg.longs.NoLongOptions?
      modifies this, nargv
      ensures r.Some? ==> Valid() && Reported(cfg, old(At()), r.value, At())
      ensures r.None? ==> Finished(cfg, old(At()), nargv[..], optind)
    {
      ghost var start := At();
      var s := Internal();
      if s.AtDashes? {
        EndOfOptions(start);
        return None;
      }
      r := if s.Interim? then Some(s.e) else None;
    }

    /** The arguments of a long option, once it has been looked up. */
    method TakeLong() returns (e: Event)
      requires cfg.longs.LongOptions? && 0 <= optind < nargv.Length
      modifies this`optind, this`place, this`optarg
      ensures var r := LongEffect(cfg, old(place), NextArg(nargv[..], old(optind)));
        e == r.0 && optind == old(optind) + r.1 && place == ""
    {
      var text := place;
      optind := optind + 1;
      place := "";
      match cfg.longs.lookup(text) {
        case NoMatch => e := BadLong(text);
        case ArgNotAllowed => e := UnwantedArg(text);
        case Complete(a) =>
          optarg := a;
          e := Long(text, a);
        case NeedsNext =>
          if optind < nargv.Length {
            optarg := Some(nargv[optind]);
            optind := optind + 1;
            e := Long(text, optarg);
          } else {
            e := MissingLongArg(text);
          }
      }
    }

    method ReadLong(ghost p: Position) returns (e: Event)
      requires Dashed(p) && cfg.longs.LongOptions? && place != ""
      modifies this`optind, this`place, this`optarg
      ensures Reported(cfg, p, e, At())
    {
      ghost var p0 := At().(letters := "");
      assert Ordered(p0);
      hide Outlook, Parse, Reported, Finished, SameScan, LongEffect, Ordered;
      FromSameScan(cfg, p, p0);
      LongStep(cfg, p0);
      ghost var p' := Moved(p0, LongEffect(cfg, place, NextArg(p0.argv, p0.optind)).1);
      e := TakeLong();
      assert nargv[..] == p0.argv;
      assert At() == p';
    }

    /** getopt_long: like getopt, but an argument behind "--" is a long option. */
    method NextOptionLong() returns (r: Option<Event>)
      requires Valid() && cfg.longs.LongOptions?
      modifies this, nargv
      ensures r.Some? ==> Valid() && Reported(cfg, old(At()), r.value, At())
      ensures r.None? ==> Finished(cfg, old(At()), nargv[..], optind)
    {
      ghost var start := At();
      var s := Internal();
      if s.AtDashes? {
        if place == "" {
          EndOfOptions(start);
          return None;
        }
        var e := ReadLong(start);
        return Some(e);
      }
      r := if s.Interim? then Some(s.e) else None;
    }

    /** A whole run: call until the scan ends. The reports are those of the reference reading of the
        original vector; the vector ends up as its options with their arguments followed by the rest,
        both in original order; optind is the index of the first of the rest; and what stands behind the
        "--" that ends the options stays where it is. */
    method Run() returns (events: seq<Event>)
      requires Valid() && At() == Position(nargv[..], 1, "", -1, -1)
      modifies this, nargv
      ensures var p := Parse(cfg, "", old(nargv[1..]));
        && events == p.events
        && nargv[..] == old(nargv[..1]) + p.opts + p.rest
        && optind == 1 + |p.opts|
        && Interleaves(old(nargv[1..]), p.opts, p.rest)
      ensures multiset(nargv[..]) == multiset(old(nargv[..]))
      ensures StaysBehind(cfg, old(nargv[..]), nargv[..])
    {
      ghost var was := nargv[..];
      assert was[1..] == nargv[1..] && was[..1] == nargv[..1];
      FinalOrder(cfg, was);
      hide Parse, Interleaves, StaysBehind;
      events := CallAll();
    }

    method CallAll() returns (events: seq<Event>)
      requires Valid() && At() == Position(nargv[..], 1, "", -1, -1)
      modifies this, nargv
      ensures var p := Parse(cfg, "", old(nargv[1..]));
        && events == p.events
        && nargv[..] == old(nargv[..1]) + p.opts + p.rest
        && optind == 1 + |p.opts|
    {
      ghost var start := At();
      assert start.argv[1..] == nargv[1..] && start.argv[..1] == nargv[..1];
      events := [];
      ghost var all := Outlook(cfg, start);
      StartOutlook(cfg, start);
      hide Parse, Steady, Ordered;
      while true
        invariant Valid() && nargv[0] == start.argv[0]
        invariant Ordered(At()) && all == Parsed(Outlook(cfg, At()).opts, Outlook(cfg, At()).rest, events + Outlook(cfg, At()).events)
        decreases |all.events| - |events|
      {
        ghost var p := At();
        var r;
        if cfg.longs.LongOptions? {
          r := NextOptionLong();
        } else {
          r := NextOption();
        }
        if r.None? {
          assert p.argv[..1] == start.argv[..1];
          return;
        }
        ReportedEvents(cfg, p, r.value, At());
        events := events + [r.value];
      }
    }
  }

  /** Everything behind the "--" that ends the options is where it was. */
  ghost predicate StaysBehind(cfg: Config, was: seq<string>, now: seq<string>) {
    && 1 <= |was| == |now|
    && forall k: nat :: k < |was| - 1 && Arrives(cfg, "", was[1..], k) && Terminates(cfg, was[1..][k]) ==> now[k + 2..] == was[k + 2..]
  }

  /** What the final vector has to do with the original one. */
  lemma FinalOrder(cfg: Config, argv: seq<string>)
    requires argv != []
    ensures var p := Parse(cfg, "", argv[1..]); var final := argv[..1] + p.opts + p.rest;
      Interleaves(argv[1..], p.opts, p.rest) && multiset(final) == multiset(argv) && StaysBehind(cfg, argv, final)
  {
    var args := argv[1..];
    var p := Parse(cfg, "", args);
    var final := argv[..1] + p.opts + p.rest;
    hide Parse, Interleaves, Terminates;
    ParseIsStablePartition(cfg, "", args);
    InterleavesMultiset(args, p.opts, p.rest);
    assert argv == argv[..1] + args;
    assert |args| == |multiset(args)| == |multiset(p.opts)| + |multiset(p.rest)| == |p.opts| + |p.rest|;
    forall k: nat | k < |argv| - 1 && Arrives(cfg, "", args, k) && Terminates(cfg, args[k]) ensures final[k + 2..] == argv[k + 2..] {
      BehindDashes(cfg, "", args, k);
      SameTail(argv, p.opts, p.rest, k);
    }
  }

  lemma SameTail(argv: seq<string>, opts: seq<string>, rest: seq<string>, k: nat)
    requires argv != [] && |argv| == 1 + |opts| + |rest| && k < |argv| - 1 && EndsWith(rest, argv[1..][k + 1..])
    ensures (argv[..1] + opts + rest)[k + 2..] == argv[k + 2..]
  {
    assert argv[1..][k + 1..] == argv[k + 2..];
  }

  lemma StartOutlook(cfg: Config, p: Position)
    requires Ordered(p) && p.optind == 1 && p.letters == "" && p.nonoptStart == -1
    ensures Outlook(cfg, p) == Parse(cfg, "", p.argv[1..])
  {
    var q := Parse(cfg, "", p.argv[1..]);
    assert [] + [] + q.opts == q.opts && [] + q.rest == q.rest;
  }

  lemma ReportedEvents(cfg: Config, p: Position, e: Event, p': Position)
    requires Reported(cfg, p, e, p')
    ensures forall es: seq<Event> :: es + Outlook(cfg, p).events == (es + [e]) + Outlook(cfg, p').events
  {
  }

  lemma EnterCluster(cfg: Config, p: Position)
    requires p.optind < |p.argv| && p.letters != "" && Ordered(p.(letters := ""))
    requires p.nonoptStart != -1 ==> p.nonoptEnd != -1 && cfg.PermuteMode()
    requires !IsNonOption(p.argv[p.optind]) && !IsDashes(p.argv[p.optind]) && p.letters == p.argv[p.optind][1..]
    ensures Steady(cfg, p) && SameScan(cfg, p.(letters := ""), p)
  {
  }
}
