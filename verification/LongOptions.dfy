/** The search of getopt_long in its table of long options (src/getopt_long.c), with abbreviations and
    ambiguity; what it finds is what module Getopt takes as given about a text behind "--". */
module LongOptions {
  import opened Options
  import opened Getopt

  datatype HasArg = NoArgument | RequiredArgument | OptionalArgument

  datatype Entry = Entry(name: string, hasArg: HasArg)

  /** What the loop over the table ends with. */
  datatype Found = Nothing | At(i: nat) | Ambiguous

  /** strncmp over the length of the name asked for. */
  predicate Abbreviates(asked: string, name: string) { asked <= name }

  lemma AbbreviatesIff(asked: string, name: string)
    ensures Abbreviates(asked, name) <==> exists rest :: name == asked + rest
  {
    if Abbreviates(asked, name) {
      assert name == asked + name[|asked|..];
    }
  }

  // ----- what the search should find

  /** The first entry whose name is exactly the one asked for. */
  ghost predicate FirstExact(table: seq<Entry>, asked: string, i: nat) {
    i < |table| && table[i].name == asked && forall k :: 0 <= k < i ==> table[k].name != asked
  }

  ghost predicate NoExact(table: seq<Entry>, asked: string) {
    forall k :: 0 <= k < |table| ==> table[k].name != asked
  }

  /** How many of the first n names the one asked for abbreviates. */
  function Count(table: seq<Entry>, asked: string, n: nat): nat
    requires n <= |table|
  {
    if n == 0 then 0 else Count(table, asked, n - 1) + if Abbreviates(asked, table[n - 1].name) then 1 else 0
  }

  lemma {:induction false} CountGrows(table: seq<Entry>, asked: string, m: nat, n: nat)
    requires m <= n <= |table|
    ensures Count(table, asked, m) <= Count(table, asked, n)
    decreases n
  {
    if m < n { CountGrows(table, asked, m, n - 1); }
  }

  /** The loop of getopt_long. It stops at the first exact name unless two abbreviations come before it,
      which it reports as ambiguous; without an exact name it needs a single abbreviation. */
  method FindLong(table: seq<Entry>, asked: string) returns (r: Found)
    ensures r == Search(table, asked, 0, -1)
    ensures r.At? ==> r.i < |table| && Abbreviates(asked, table[r.i].name)
    ensures forall i: nat :: FirstExact(table, asked, i) ==>
      r == if Count(table, asked, i) <= 1 then At(i) else Ambiguous
    ensures NoExact(table, asked) ==>
      var n := Count(table, asked, |table|);
      (r.Nothing? <==> n == 0) && (r.At? <==> n == 1) && (r.Ambiguous? <==> n >= 2)
  {
    var found := -1;
    var i := 0;
    while i < |table|
      invariant 0 <= i <= |table|
      invariant forall k :: 0 <= k < i ==> table[k].name != asked
      invariant -1 <= found < i && Search(table, asked, i, found) == Search(table, asked, 0, -1)
      invariant found == -1 ==> Count(table, asked, i) == 0
      invariant found != -1 ==> 0 <= found < i && Count(table, asked, i) == 1 && Abbreviates(asked, table[found].name)
    {
      if Abbreviates(asked, table[i].name) {
        if |table[i].name| == |asked| {
          assert table[i].name == asked;
          return At(i);
        }
        if found == -1 {
          found := i;
        } else {
          Beyond(table, asked, i + 1);
          return Ambiguous;
        }
      }
      i := i + 1;
    }
    r := if found == -1 then Nothing else At(found);
  }

  /** Two abbreviations early on are two before any later entry. */
  lemma Beyond(table: seq<Entry>, asked: string, m: nat)
    requires m <= |table|
    ensures forall n :: m <= n <= |table| ==> Count(table, asked, m) <= Count(table, asked, n)
  {
    forall n | m <= n <= |table| ensures Count(table, asked, m) <= Count(table, asked, n) {
      CountGrows(table, asked, m, n);
    }
  }

  // ----- the search as a function, and the argument of what was found

  function Search(table: seq<Entry>, asked: string, i: nat, found: int): (r: Found)
    requires i <= |table| && -1 <= found < i
    ensures r.At? ==> r.i < |table|
    decreases |table| - i
  {
    if i == |table| then if found == -1 then Nothing else At(found)
    else if !Abbreviates(asked, table[i].name) then Search(table, asked, i + 1, found)
    else if |table[i].name| == |asked| then At(i)
    else if found == -1 then Search(table, asked, i + 1, i)
    else Ambiguous
  }

  /** An exact name is found if and only if at most one name before it begins with it too. */
  lemma ExactWinsIff(table: seq<Entry>, asked: string, i: nat)
    requires FirstExact(table, asked, i)
    ensures Search(table, asked, 0, -1) == At(i) <==> Count(table, asked, i) <= 1
    ensures Count(table, asked, i) > 1 ==> Search(table, asked, 0, -1) == Ambiguous
  {
    SearchFrom(table, asked, 0, -1, i);
  }

  lemma {:induction false} SearchFrom(table: seq<Entry>, asked: string, j: nat, found: int, i: nat)
    requires FirstExact(table, asked, i) && j <= i && -1 <= found < j
    requires Count(table, asked, j) == if found == -1 then 0 else 1
    ensures Search(table, asked, j, found) == if Count(table, asked, i) <= 1 then At(i) else Ambiguous
    decreases i - j
  {
    if j < i {
      assert table[j].name != asked;
      if !Abbreviates(asked, table[j].name) {
        SearchFrom(table, asked, j + 1, found, i);
      } else if found == -1 {
        SearchFrom(table, asked, j + 1, j, i);
      } else {
        CountGrows(table, asked, j + 1, i);
      }
    }
  }

  /** Without an exact name, a single abbreviation is found, and two are ambiguous. */
  lemma {:induction false} AbbreviationNeedsOne(table: seq<Entry>, asked: string, j: nat, found: int)
    requires NoExact(table, asked) && j <= |table| && -1 <= found < j
    requires Count(table, asked, j) == if found == -1 then 0 else 1
    ensures var r, n := Search(table, asked, j, found), Count(table, asked, |table|);
      (r.Nothing? <==> n == 0) && (r.At? <==> n == 1) && (r.Ambiguous? <==> n >= 2)
    decreases |table| - j
  {
    if j < |table| {
      assert table[j].name != asked;
      if !Abbreviates(asked, table[j].name) {
        AbbreviationNeedsOne(table, asked, j + 1, found);
      } else if found == -1 {
        AbbreviationNeedsOne(table, asked, j + 1, j);
      } else {
        CountGrows(table, asked, j + 1, |table|);
      }
    }
  }

  /** What getopt_long makes of the entry found: the argument behind the equals sign, or the need for one. */
  function Lookup(table: seq<Entry>, text: string): LongMatch {
    var e := Find(text, '=');
    var given := if e < |text| then Some(text[e + 1..]) else None;
    match Search(table, text[..e], 0, -1)
    case Nothing => NoMatch
    case Ambiguous => NoMatch
    case At(i) =>
      match table[i].hasArg
      case NoArgument => if given.Some? then ArgNotAllowed else Complete(None)
      case RequiredArgument => if given.Some? then Complete(given) else NeedsNext
      case OptionalArgument => Complete(given)
  }

  /** What "--name" and "--name=arg" come to, by what the table says of the entry found. */
  lemma LookupIs(table: seq<Entry>, name: string, arg: string, i: nat)
    requires '=' !in name && i < |table| && Search(table, name, 0, -1) == At(i)
    ensures table[i].hasArg == NoArgument ==> Lookup(table, name) == Complete(None) && Lookup(table, name + "=" + arg) == ArgNotAllowed
    ensures table[i].hasArg == RequiredArgument ==> Lookup(table, name) == NeedsNext && Lookup(table, name + "=" + arg) == Complete(Some(arg))
    ensures table[i].hasArg == OptionalArgument ==> Lookup(table, name) == Complete(None) && Lookup(table, name + "=" + arg) == Complete(Some(arg))
  {
    NameParts(name, arg);
    hide Search;
  }

  /** A name that is not found, or not unambiguously, is refused with and without an argument. */
  lemma LookupRefuses(table: seq<Entry>, name: string, arg: string)
    requires '=' !in name && !Search(table, name, 0, -1).At?
    ensures Lookup(table, name) == NoMatch && Lookup(table, name + "=" + arg) == NoMatch
  {
    NameParts(name, arg);
    hide Search;
  }

  lemma NameParts(name: string, arg: string)
    requires '=' !in name
    ensures Find(name, '=') == |name| && name[..|name|] == name
    ensures var text := name + "=" + arg; Find(text, '=') == |name| && text[..|name|] == name && text[|name| + 1..] == arg
  {
    var text := name + "=" + arg;
    assert text[|name|] == '=' && forall k :: 0 <= k < |name| ==> text[k] == name[k];
  }

  /** getopt_long with a table of long options: a configuration of the scanner. */
  function TableConfig(options: string, posixlyCorrect: bool, table: seq<Entry>): Config {
    Config(options, posixlyCorrect, LongTable.LongOptions(text => Lookup(table, text)))
  }
}
