/** What the option string and the shape of an argument mean to the scanner of src/getopt_long.c, said of the
    strings themselves. */
module OptionStrings {
  import opened Options
  import opened Getopt

  predicate StartsWith(s: string, front: string) { front <= s }

  /** The options begin with the given letters, after a first character that only chooses the mode. */
  ghost predicate Lists(cfg: Config, letters: string) {
    || (cfg.options == letters && !StartsWith(letters, "-") && !StartsWith(letters, "+"))
    || cfg.options == "-" + letters || cfg.options == "+" + letters
  }

  lemma ListedLetters(cfg: Config, letters: string)
    requires Lists(cfg, letters)
    ensures letters == if cfg.IgnoreFirst() then cfg.options[1..] else cfg.options
  {
    if cfg.options == "-" + letters || cfg.options == "+" + letters {
      assert cfg.options[1..] == letters;
    }
  }

  /** The first place of c in the list decides: nothing behind it, one colon or two. */
  lemma KindIs(cfg: Config, a: string, c: char, b: string)
    requires Lists(cfg, a + [c] + b) && c != ':' && c !in a
    ensures KindOf(cfg, c) == NoArg <==> !StartsWith(b, ":")
    ensures KindOf(cfg, c) == NeedsArg <==> StartsWith(b, ":") && !StartsWith(b, "::")
    ensures KindOf(cfg, c) == MayHaveArg <==> StartsWith(b, "::")
  {
    var letters := a + [c] + b;
    ListedLetters(cfg, letters);
    var i := Find(letters, c);
    assert letters[|a|] == c && forall k :: 0 <= k < |a| ==> letters[k] == a[k];
    assert i == |a|;
    assert letters[|a| + 1..] == b;
    assert b != "" ==> letters[|a| + 1] == b[0];
    assert |b| >= 2 ==> letters[|a| + 2] == b[1];
  }

  lemma UnknownIff(cfg: Config, letters: string, c: char)
    requires Lists(cfg, letters)
    ensures KindOf(cfg, c) == Unknown <==> c == ':' || c !in letters
  {
    ListedLetters(cfg, letters);
  }

  /** Arguments are permuted unless the environment or a first '+' or '-' says otherwise; a first '-' has
      them reported in order. */
  lemma ModesAre(cfg: Config)
    ensures cfg.PermuteMode() <==> !cfg.posixlyCorrect && !StartsWith(cfg.options, "-") && !StartsWith(cfg.options, "+")
    ensures cfg.InOrderMode() <==> !cfg.posixlyCorrect && StartsWith(cfg.options, "-")
  {
  }

  /** An argument is an option if it is a dash with something behind it; two dashes set it apart. */
  lemma ShapesAre(x: string)
    ensures IsNonOption(x) <==> !StartsWith(x, "-") || x == "-"
    ensures IsDashes(x) <==> StartsWith(x, "--")
  {
    if StartsWith(x, "-") && |x| == 1 { assert x == "-"; }
  }

  // ----- one option letter

  /** What a lone option letter in front of other arguments reports and uses up: the reading of the rest is
      that of what it leaves. */
  ghost predicate Reports(cfg: Config, args: seq<string>, e: Event, used: nat) {
    used <= |args| && Parse(cfg, "", args) == Prepend(args[..used], e, Parse(cfg, "", args[used..]))
  }

  /** An argument of one dash opens a cluster of letters. */
  lemma OpensCluster(cfg: Config, letters: string, more: seq<string>)
    requires letters != "" && letters[0] != '-'
    ensures var args := [['-'] + letters] + more; Parse(cfg, "", args) == Parse(cfg, letters, args)
  {
    var x := ['-'] + letters;
    var args := [x] + more;
    assert args[0] == x && x[0] == '-' && x[1] == letters[0] && x[1..] == letters;
    hide KindOf;
  }

  /** The first letter of a cluster, by its kind. */
  lemma FirstLetter(cfg: Config, c: char, text: string, args: seq<string>)
    requires args != []
    ensures var p := Parse(cfg, [c] + text, args); var kind := KindOf(cfg, c);
      && (kind == NoArg && text == "" ==> p == Prepend(args[..1], Letter(c, None), Parse(cfg, "", args[1..])))
      && (kind == NoArg && text != "" ==> p == Prepend([], Letter(c, None), Parse(cfg, text, args)))
      && (kind == Unknown && text == "" ==> p == Prepend(args[..1], BadLetter(c), Parse(cfg, "", args[1..])))
      && (kind == MayHaveArg && text == "" ==> p == Prepend(args[..1], Letter(c, None), Parse(cfg, "", args[1..])))
      && (kind == MayHaveArg && text != "" ==> p == Prepend(args[..1], Letter(c, Some(text)), Parse(cfg, "", args[1..])))
      && (kind == NeedsArg && text != "" ==> p == Prepend(args[..1], Letter(c, Some(text)), Parse(cfg, "", args[1..])))
      && (kind == NeedsArg && text == "" && |args| >= 2 ==> p == Prepend(args[..2], Letter(c, Some(args[1])), Parse(cfg, "", args[2..])))
      && (kind == NeedsArg && text == "" && |args| == 1 ==> p == Prepend(args[..1], MissingArg(c), Parse(cfg, "", args[1..])))
  {
    var letters := [c] + text;
    assert letters[0] == c && letters[1..] == text;
    hide KindOf;
  }

  /** "-c" with nothing attached. */
  lemma LoneLetter(cfg: Config, a: string, c: char, b: string, more: seq<string>)
    requires Lists(cfg, a + [c] + b) && c != ':' && c != '-' && c !in a
    ensures var args := [['-', c]] + more;
      && (!StartsWith(b, ":") ==> Reports(cfg, args, Letter(c, None), 1))
      && (StartsWith(b, "::") ==> Reports(cfg, args, Letter(c, None), 1))
      && (StartsWith(b, ":") && !StartsWith(b, "::") && more != [] ==> Reports(cfg, args, Letter(c, Some(more[0])), 2))
      && (StartsWith(b, ":") && !StartsWith(b, "::") && more == [] ==> Reports(cfg, args, MissingArg(c), 1))
  {
    var args := [['-', c]] + more;
    assert ['-'] + [c] == ['-', c] && [c] + "" == [c] && args[0] == ['-', c];
    KindIs(cfg, a, c, b);
    hide KindOf, Parse, Lists, StartsWith;
    OpensCluster(cfg, [c], more);
    FirstLetter(cfg, c, "", args);
  }

  /** "-ctext": the text is the argument of a letter that takes one, and more letters behind one that does
      not. */
  lemma AttachedText(cfg: Config, a: string, c: char, b: string, text: string, more: seq<string>)
    requires Lists(cfg, a + [c] + b) && c != ':' && c != '-' && c !in a && text != ""
    ensures var args := [['-', c] + text] + more;
      && (StartsWith(b, ":") ==> Reports(cfg, args, Letter(c, Some(text)), 1))
      && (!StartsWith(b, ":") ==> Parse(cfg, "", args) == Prepend([], Letter(c, None), Parse(cfg, text, args)))
  {
    var args := [['-', c] + text] + more;
    assert ['-'] + ([c] + text) == ['-', c] + text;
    assert StartsWith(b, ":") ==> StartsWith(b, "::") || !StartsWith(b, "::");
    KindIs(cfg, a, c, b);
    hide KindOf, Parse, Lists, StartsWith;
    OpensCluster(cfg, [c] + text, more);
    FirstLetter(cfg, c, text, args);
  }

  /** A letter the options do not list. */
  lemma UnlistedLetter(cfg: Config, letters: string, c: char, more: seq<string>)
    requires Lists(cfg, letters) && c != '-' && (c == ':' || c !in letters)
    ensures Reports(cfg, [['-', c]] + more, BadLetter(c), 1)
  {
    assert ['-'] + [c] == ['-', c] && [c] + "" == [c];
    UnknownIff(cfg, letters, c);
    hide KindOf, Parse, Lists;
    OpensCluster(cfg, [c], more);
    FirstLetter(cfg, c, "", [['-', c]] + more);
  }

  /** An argument that is no option, where arguments are permuted: it is the first of the rest. */
  lemma NoOption(cfg: Config, x: string, more: seq<string>)
    requires !cfg.posixlyCorrect && !StartsWith(cfg.options, "-") && !StartsWith(cfg.options, "+")
    requires !StartsWith(x, "-") || x == "-"
    ensures var p := Parse(cfg, "", more); Parse(cfg, "", [x] + more) == Parsed(p.opts, [x] + p.rest, p.events)
  {
    ShapesAre(x);
    ModesAre(cfg);
    var args := [x] + more;
    assert args[0] == x && args[1..] == more && args[..1] == [x];
  }

  /** A run whose first argument is "-c": what it reports first, and that the letter's argument, if it takes
      the next one, stays in front with it. */
  method RunLetter(sc: Scanner, a: string, c: char, b: string) returns (events: seq<Event>)
    requires sc.Valid() && sc.At() == Position(sc.nargv[..], 1, "", -1, -1)
    requires Lists(sc.cfg, a + [c] + b) && c != ':' && c != '-' && c !in a
    requires sc.nargv.Length >= 2 && sc.nargv[1] == ['-', c]
    modifies sc, sc.nargv
    ensures events != [] && sc.nargv[1] == old(sc.nargv[1]) && sc.optind >= 2
    ensures !StartsWith(b, ":") || StartsWith(b, "::") ==> events[0] == Letter(c, None)
    ensures StartsWith(b, ":") && !StartsWith(b, "::") && sc.nargv.Length > 2 ==>
      events[0] == Letter(c, Some(old(sc.nargv[2]))) && sc.nargv[2] == old(sc.nargv[2]) && sc.optind >= 3
    ensures StartsWith(b, ":") && !StartsWith(b, "::") && sc.nargv.Length == 2 ==> events == [MissingArg(c)] && sc.optind == 2
  {
    ghost var was := sc.nargv[..];
    ghost var args, more := was[1..], was[2..];
    assert args == [['-', c]] + more && args == sc.nargv[1..];
    LoneLetter(sc.cfg, a, c, b, more);
    assert more == [] ==> Parse(sc.cfg, "", args[1..]) == Parsed([], [], []);
    hide Parse, StartsWith, Lists, Interleaves, StaysBehind, KindOf;
    events := sc.Run();
  }
}
