/**
 LearnLinq.Program.Main: a fixed roster of six hero names run through
 independent filter and projection queries. Each query is a function of
 the roster it reads; Output lists, in order, every line Main writes.
 */
module LearnLinq {
  import opened Linq
  import opened Strings

  // The six names of the `heroes` list.
  const D_VA: string := "D. Va"
  const LUCIO: string := "Lucio"
  const MERCY: string := "Mercy"
  const SOLDIER_76: string := "Soldier 76"
  const PHARAH: string := "Pharah"
  const REINHARDT: string := "Reinhardt"

  /** The `heroes` list, built once and never changed. */
  const HEROES: seq<string> := [D_VA, LUCIO, MERCY, SOLDIER_76, PHARAH, REINHARDT]

  /** The `heroesList` list, a second literal written out on its own. */
  const HEROES_LIST: seq<string> := ["D. Va", "Lucio", "Mercy", "Soldier 76", "Pharah", "Reinhardt"]

  // The predicates and projections of the queries' lambdas.

  /** The test of the short-names query. */
  predicate IsShort(h: string) { |h| < 8 }

  /** The test of the long-names query. */
  predicate IsLong(h: string) { |h| > 8 }

  /** The length neither of the two length tests accepts. */
  predicate IsEightLong(h: string) { |h| == 8 }

  /** The test of both contains-"a" queries: the name holds the letter 'a' (case-sensitive). */
  function HasA(x: string): (b: bool)
    ensures b <==> 'a' in x
  {
    ContainsSingleton(x, 'a');
    Contains(x, "a")
  }

  /** The test of the contains-"i" query: the name holds the letter 'i'. */
  function HasI(h: string): (b: bool)
    ensures b <==> 'i' in h
  {
    ContainsSingleton(h, 'i');
    Contains(h, "i")
  }

  /** The test of both contains-"c" queries: the name holds the letter 'c'. */
  function HasC(h: string): (b: bool)
    ensures b <==> 'c' in h
  {
    ContainsSingleton(h, 'c');
    Contains(h, "c")
  }

  /** The test of the space-index query: the name holds a space. */
  function HasSpace(h: string): (b: bool)
    ensures b <==> ' ' in h
  {
    ContainsSingleton(h, ' ');
    Contains(h, " ")
  }

  /** The test of the last query: the name holds a period or the digit 7. */
  function HasSpecialChar(h: string): (b: bool)
    ensures b <==> '.' in h || '7' in h
  {
    ContainsChar(h, '.') || ContainsChar(h, '7')
  }

  /** The line for a name that contains an 'a': the name, then a fixed suffix. */
  function ContainsAText(x: string): (r: string)
    ensures |r| == |x| + |" contains an 'a'"|
    ensures r[..|x|] == x && r[|x|..] == " contains an 'a'"
  {
    x + " contains an 'a'"
  }

  /** A name with its spaces turned into underscores. */
  function Underscore(h: string): (r: string)
    ensures |r| == |h| && ' ' !in r
    ensures forall j :: 0 <= j < |h| ==> r[j] == if h[j] == ' ' then '_' else h[j]
  {
    ReplaceChar(h, ' ', '_')
  }

  /** The greeting line for a name: a fixed prefix, the name, then "!". */
  function Greeting(name: string): (r: string)
    ensures |r| == |"Introducing..."| + |name| + 1
    ensures r[..14] == "Introducing..." && r[14..|r| - 1] == name && r[|r| - 1] == '!'
  {
    "Introducing..." + name + "!"
  }

  /** The first space of a name that holds one: in range, a space, no space before it. */
  ghost predicate IsFirstSpace(name: string, i: int)
  {
    0 <= i < |name| && name[i] == ' ' && forall j :: 0 <= j < i ==> name[j] != ' '
  }

  /** The index of the first space of a name, or -1 when it has none. */
  function FirstSpace(h: string): (r: int)
    ensures r == -1 <==> ' ' !in h
    ensures r != -1 ==> IsFirstSpace(h, r)
  {
    IndexOfChar(h, ' ');
    IndexOf(h, " ")
  }

  /** The names shorter than 8, in roster order (a query expression). */
  function ShortHeroes(heroes: seq<string>): (r: seq<string>)
    ensures IsFilterOf(r, heroes, IsShort)
    ensures forall i :: 0 <= i < |r| ==> |r[i]| < 8 && r[i] in heroes
    ensures forall i :: 0 <= i < |heroes| && |heroes[i]| < 8 ==> heroes[i] in r
  {
    QueryIdIsWhere(heroes, IsShort);
    WhereIsFilter(heroes, IsShort);
    Query(heroes, IsShort, Id)
  }

  /** The names longer than 8, in roster order (method syntax). */
  function LongHeroes(heroes: seq<string>): (r: seq<string>)
    ensures IsFilterOf(r, heroes, IsLong)
    ensures forall i :: 0 <= i < |r| ==> |r[i]| > 8 && r[i] in heroes
    ensures forall i :: 0 <= i < |heroes| && |heroes[i]| > 8 ==> heroes[i] in r
  {
    WhereIsFilter(heroes, IsLong);
    Where(heroes, IsLong)
  }

  /** How many names are longer than 8. */
  function LongHeroesCount(heroes: seq<string>): (n: nat)
    ensures n == |Positions(heroes, IsLong)|
  {
    Count(LongHeroes(heroes))
  }

  /** The "contains an 'a'" line of each name holding an 'a' (a query expression). */
  function QueryResult(heroes: seq<string>): (r: seq<string>)
    ensures IsProjectedFilterOf(r, heroes, HasA, ContainsAText)
  {
    QueryIsProjectedFilter(heroes, HasA, ContainsAText);
    Query(heroes, HasA, ContainsAText)
  }

  /** The "contains an 'a'" line of each name holding an 'a' (method syntax). */
  function MethodResult(heroes: seq<string>): (r: seq<string>)
    ensures IsProjectedFilterOf(r, heroes, HasA, ContainsAText)
  {
    SelectWhereIsProjectedFilter(heroes, HasA, ContainsAText);
    Select(Where(heroes, HasA), ContainsAText)
  }

  /** The names holding an 'i', in roster order. */
  function HeroesWithI(heroes: seq<string>): (r: seq<string>)
    ensures IsFilterOf(r, heroes, HasI)
  {
    QueryIdIsWhere(heroes, HasI);
    WhereIsFilter(heroes, HasI);
    Query(heroes, HasI, Id)
  }

  /** Every name with its spaces turned into underscores. */
  function Underscored(heroes: seq<string>): (r: seq<string>)
    ensures |r| == |heroes|
    ensures forall i :: 0 <= i < |r| ==> |r[i]| == |heroes[i]| && ' ' !in r[i]
    ensures forall i, j :: 0 <= i < |r| && 0 <= j < |r[i]| ==>
      r[i][j] == if heroes[i][j] == ' ' then '_' else heroes[i][j]
  {
    QueryAlwaysIsSelect(heroes, Underscore);
    Query(heroes, Always, Underscore)
  }

  /** The names holding a 'c', in roster order. */
  function HeroesC(heroes: seq<string>): (r: seq<string>)
    ensures IsFilterOf(r, heroes, HasC)
  {
    WhereIsFilter(heroes, HasC);
    Where(heroes, HasC)
  }

  /** The lower-cased names holding a 'c', projected from HeroesC in a second step. */
  function LowerHeroesWithC(heroes: seq<string>): (r: seq<string>)
    ensures IsProjectedFilterOf(r, heroes, HasC, ToLower)
  {
    Select(HeroesC(heroes), ToLower)
  }

  /** The lower-cased names holding a 'c', filtered and projected in one chained expression. */
  function SameResult(heroes: seq<string>): (r: seq<string>)
    ensures IsProjectedFilterOf(r, heroes, HasC, ToLower)
  {
    SelectWhereIsProjectedFilter(heroes, HasC, ToLower);
    Select(Where(heroes, HasC), ToLower)
  }

  /** One greeting line per name, in roster order. */
  function HeroName(heroes: seq<string>): (r: seq<string>)
    ensures |r| == |heroes|
    ensures forall i :: 0 <= i < |r| ==> r[i] == "Introducing..." + heroes[i] + "!"
  {
    Select(heroes, Greeting)
  }

  /** The index of the first space of each name that has one. */
  function SpaceName(heroes: seq<string>): (r: seq<int>)
    ensures IsProjectedFilterOf(r, heroes, HasSpace, FirstSpace)
    ensures var ix := Positions(heroes, HasSpace);
      forall k :: 0 <= k < |r| ==> IsFirstSpace(heroes[ix[k]], r[k])
  {
    QueryIsProjectedFilter(heroes, HasSpace, FirstSpace);
    var r := Query(heroes, HasSpace, FirstSpace);
    var ix := Positions(heroes, HasSpace);
    assert forall k :: 0 <= k < |r| ==> IsFirstSpace(heroes[ix[k]], r[k]) by {
      forall k | 0 <= k < |r|
        ensures IsFirstSpace(heroes[ix[k]], r[k])
      {
        var name := heroes[ix[k]];
        ContainsSingleton(name, ' ');
        IndexOfChar(name, ' ');
      }
    }
    r
  }

  /** The names of the second list holding a period or a 7, in list order. */
  function HeroesWithSpecialChars(heroesList: seq<string>): (r: seq<string>)
    ensures IsFilterOf(r, heroesList, HasSpecialChar)
    ensures forall i :: 0 <= i < |r| ==> ('.' in r[i] || '7' in r[i]) && r[i] in heroesList
    ensures forall i :: 0 <= i < |heroesList| && ('.' in heroesList[i] || '7' in heroesList[i]) ==>
      heroesList[i] in r
  {
    WhereIsFilter(heroesList, HasSpecialChar);
    Where(heroesList, HasSpecialChar)
  }

  /** Every line Main passes to Console.WriteLine, in order. */
  function Output(heroes: seq<string>, heroesList: seq<string>): (lines: seq<string>)
    ensures |lines| == 4 + |ShortHeroes(heroes)| + 2 * |QueryResult(heroes)|
      + 2 * |LowerHeroesWithC(heroes)| + |heroes| + |SpaceName(heroes)|
      + |HeroesWithSpecialChars(heroesList)|
    ensures lines[0] == "Your short heroes are..."
  {
    ["Your short heroes are..."] + ShortHeroes(heroes)
    + [IntToString(LongHeroesCount(heroes))]
    + ["queryResult:"] + QueryResult(heroes)
    + ["\nmethodResult:"] + MethodResult(heroes)
    + LowerHeroesWithC(heroes)
    + SameResult(heroes)
    + HeroName(heroes)
    + Select(SpaceName(heroes), IntToString)
    + HeroesWithSpecialChars(heroesList)
  }

  /** The k elements of lines from position i on, or nothing when lines is shorter. */
  function Window<T>(lines: seq<T>, i: int, k: nat): (w: seq<T>)
    ensures |w| == k || w == []
  {
    if 0 <= i && i + k <= |lines| then lines[i..i + k] else []
  }

  /** In a sequence that begins with pre + part, part stands right after pre. */
  lemma PartAt<T>(lines: seq<T>, pre: seq<T>, part: seq<T>)
    requires |pre| + |part| <= |lines| && lines[..|pre| + |part|] == pre + part
    ensures Window(lines, |pre|, |part|) == part
    ensures lines[..|pre|] == pre
  {
    assert lines[..|pre|] == (pre + part)[..|pre|];
    assert lines[|pre|..|pre| + |part|] == (pre + part)[|pre|..];
  }

  /** Output assembled from the value of each of its parts. */
  lemma OutputFromParts(heroes: seq<string>, heroesList: seq<string>, short: seq<string>, count: string,
                        query: seq<string>, chained: seq<string>, lower: seq<string>, same: seq<string>,
                        names: seq<string>, spaces: seq<string>, special: seq<string>)
    requires ShortHeroes(heroes) == short && IntToString(LongHeroesCount(heroes)) == count
    requires QueryResult(heroes) == query && MethodResult(heroes) == chained
    requires LowerHeroesWithC(heroes) == lower && SameResult(heroes) == same
    requires HeroName(heroes) == names && Select(SpaceName(heroes), IntToString) == spaces
    requires HeroesWithSpecialChars(heroesList) == special
    ensures Output(heroes, heroesList) ==
      ["Your short heroes are..."] + short + [count] + ["queryResult:"] + query + ["\nmethodResult:"] + chained
      + lower + same + names + spaces + special
  {
  }

  /**
   The shape of Output: a heading, a block, a line, a heading, a block, a
   heading, then six blocks; each stands after the ones before it.
   */
  lemma OutputShape<T>(lines: seq<T>, h0: T, short: seq<T>, count: T, h3: T, query: seq<T>, h5: T, chained: seq<T>,
                       lower: seq<T>, same: seq<T>, names: seq<T>, spaces: seq<T>, special: seq<T>)
    requires lines == [h0] + short + [count] + [h3] + query + [h5] + chained + lower + same + names + spaces + special
    ensures Window(lines, 0, 1) == [h0]
    ensures Window(lines, 1, |short|) == short
    ensures Window(lines, 1 + |short|, 1) == [count]
    ensures Window(lines, 2 + |short|, 1) == [h3]
    ensures Window(lines, 3 + |short|, |query|) == query
    ensures Window(lines, 3 + |short| + |query|, 1) == [h5]
    ensures Window(lines, 4 + |short| + |query|, |chained|) == chained
    ensures Window(lines, 4 + |short| + |query| + |chained|, |lower|) == lower
    ensures Window(lines, 4 + |short| + |query| + |chained| + |lower|, |same|) == same
    ensures Window(lines, 4 + |short| + |query| + |chained| + |lower| + |same|, |names|) == names
    ensures Window(lines, 4 + |short| + |query| + |chained| + |lower| + |same| + |names|, |spaces|) == spaces
    ensures Window(lines, 4 + |short| + |query| + |chained| + |lower| + |same| + |names| + |spaces|, |special|) == special
    ensures |lines| == 4 + |short| + |query| + |chained| + |lower| + |same| + |names| + |spaces| + |special|
  {
    var p10 := [h0] + short + [count] + [h3] + query + [h5] + chained + lower + same + names + spaces;
    var p9 := [h0] + short + [count] + [h3] + query + [h5] + chained + lower + same + names;
    var p8 := [h0] + short + [count] + [h3] + query + [h5] + chained + lower + same;
    var p7 := [h0] + short + [count] + [h3] + query + [h5] + chained + lower;
    var p6 := [h0] + short + [count] + [h3] + query + [h5] + chained;
    var p5 := [h0] + short + [count] + [h3] + query + [h5];
    var p4 := [h0] + short + [count] + [h3] + query;
    var p3 := [h0] + short + [count] + [h3];
    var p2 := [h0] + short + [count];
    var p1 := [h0] + short;
    assert lines[..|lines|] == lines;
    PartAt(lines, p10, special);
    PartAt(lines, p9, spaces);
    PartAt(lines, p8, names);
    PartAt(lines, p7, same);
    PartAt(lines, p6, lower);
    PartAt(lines, p5, chained);
    PartAt(lines, p4, [h5]);
    PartAt(lines, p3, query);
    PartAt(lines, p2, [h3]);
    PartAt(lines, p1, [count]);
    PartAt(lines, [h0], short);
    PartAt(lines, [], [h0]);
  }

  /**
   Where each part of the lines Output prints stands: the heading, the short
   names, the count of long names, the two query headings each followed by
   its query's result, the lower-cased names twice, the greetings, the
   positions of the spaces and the names holding a '.' or a '7'.
   */
  lemma OutputLayout(heroes: seq<string>, heroesList: seq<string>, lines: seq<string>, short: seq<string>,
                     query: seq<string>, chained: seq<string>, lower: seq<string>, same: seq<string>,
                     names: seq<string>, spaces: seq<string>, special: seq<string>)
    requires lines == Output(heroes, heroesList)
    requires short == ShortHeroes(heroes) && query == QueryResult(heroes) && chained == MethodResult(heroes)
    requires lower == LowerHeroesWithC(heroes) && same == SameResult(heroes) && names == HeroName(heroes)
    requires spaces == Select(SpaceName(heroes), IntToString) && special == HeroesWithSpecialChars(heroesList)
    ensures Window(lines, 0, 1) == ["Your short heroes are..."]
    ensures Window(lines, 1, |short|) == short
    ensures Window(lines, 1 + |short|, 1) == [IntToString(LongHeroesCount(heroes))]
    ensures Window(lines, 2 + |short|, 1) == ["queryResult:"]
    ensures Window(lines, 3 + |short|, |query|) == query
    ensures Window(lines, 3 + |short| + |query|, 1) == ["\nmethodResult:"]
    ensures Window(lines, 4 + |short| + |query|, |chained|) == chained
    ensures Window(lines, 4 + |short| + |query| + |chained|, |lower|) == lower
    ensures Window(lines, 4 + |short| + |query| + |chained| + |lower|, |same|) == same
    ensures Window(lines, 4 + |short| + |query| + |chained| + |lower| + |same|, |names|) == names
    ensures Window(lines, 4 + |short| + |query| + |chained| + |lower| + |same| + |names|, |spaces|) == spaces
    ensures Window(lines, 4 + |short| + |query| + |chained| + |lower| + |same| + |names| + |spaces|, |special|) == special
    ensures |lines| == 4 + |short| + |query| + |chained| + |lower| + |same| + |names| + |spaces| + |special|
  {
    OutputShape(lines, "Your short heroes are...", short, IntToString(LongHeroesCount(heroes)), "queryResult:", query,
      "\nmethodResult:", chained, lower, same, names, spaces, special);
  }

  /** The roster, name by name, in the order the list literal gives. */
  lemma RosterNames()
    ensures |HEROES| == 6
    ensures HEROES == ["D. Va", "Lucio", "Mercy", "Soldier 76", "Pharah", "Reinhardt"]
  {
  }

  /** The names in heroesList are those of heroes, in the same order. */
  lemma HeroesListIsHeroes()
    ensures HEROES_LIST == HEROES
  {
  }

  /** No name is both short and long; a name of length 8 is neither. */
  lemma ShortLongDisjoint(heroes: seq<string>, h: string)
    ensures !(h in ShortHeroes(heroes) && h in LongHeroes(heroes))
    ensures |h| == 8 ==> h !in ShortHeroes(heroes) && h !in LongHeroes(heroes)
  {
  }

  /** Every name is short, long, or exactly 8 long, and in exactly one of these. */
  lemma {:induction false} LengthClassesPartition(s: seq<string>)
    ensures |Where(s, IsShort)| + |Where(s, IsLong)| + |Where(s, IsEightLong)| == |s|
  {
    if s != [] {
      LengthClassesPartition(s[1..]);
    }
  }

  /** The short names, the long names and the names of length 8 together make up the roster. */
  lemma ShortLongPartition(heroes: seq<string>)
    ensures |ShortHeroes(heroes)| + |LongHeroes(heroes)| + |Where(heroes, IsEightLong)| == |heroes|
  {
    QueryIdIsWhere(heroes, IsShort);
    LengthClassesPartition(heroes);
  }

  /** The query-syntax and method-syntax forms of the contains-"a" query agree on every roster. */
  lemma QueryMatchesMethod(heroes: seq<string>)
    ensures QueryResult(heroes) == MethodResult(heroes)
  {
    QueryIsWhereSelect(heroes, HasA, ContainsAText);
  }

  /** The two-step and the chained contains-"c"-then-lower-case queries agree on every roster. */
  lemma TwoStepMatchesChained(heroes: seq<string>)
    ensures LowerHeroesWithC(heroes) == SameResult(heroes)
  {
  }

  // The results for the fixed roster.

  /** Select over a three-element sequence, element by element. */
  lemma SelectThree<T, U>(s: seq<T>, f: T -> U)
    requires |s| == 3
    ensures Select(s, f) == [f(s[0]), f(s[1]), f(s[2])]
  {
    assert s == [s[0]] + [s[1]] + [s[2]];
  }

  /** Where over a six-element sequence, element by element. */
  lemma WhereSix<T>(s: seq<T>, p: T -> bool)
    requires |s| == 6
    ensures Where(s, p) == Keep(s[0], p) + (Keep(s[1], p) + (Keep(s[2], p) + (Keep(s[3], p)
      + (Keep(s[4], p) + Keep(s[5], p)))))
  {
    WhereFrom(s, 5, p);
    assert s[6..] == [];
    assert Where(s[5..], p) == Keep(s[5], p);
    WhereFrom(s, 4, p);
    WhereFrom(s, 3, p);
    WhereFrom(s, 2, p);
    WhereFrom(s, 1, p);
    WhereFrom(s, 0, p);
    assert s[0..] == s;
  }

  /** Select over a six-element sequence, element by element. */
  lemma SelectSix<T, U>(s: seq<T>, f: T -> U)
    requires |s| == 6
    ensures Select(s, f) == [f(s[0]), f(s[1]), f(s[2]), f(s[3]), f(s[4]), f(s[5])]
  {
  }

  lemma RosterIsShortLong()
    ensures IsShort(D_VA) && IsShort(LUCIO) && IsShort(MERCY) && !IsShort(SOLDIER_76)
      && IsShort(PHARAH) && !IsShort(REINHARDT)
    ensures !IsLong(D_VA) && !IsLong(LUCIO) && !IsLong(MERCY) && IsLong(SOLDIER_76)
      && !IsLong(PHARAH) && IsLong(REINHARDT)
  {
  }

  lemma RosterShortWhere()
    ensures Where(HEROES, IsShort) == [D_VA, LUCIO, MERCY, PHARAH]
  {
    WhereSix(HEROES, IsShort);
    RosterIsShortLong();
  }

  /** The lines after "Your short heroes are...": the four names shorter than 8. */
  lemma RosterShortHeroes()
    ensures ShortHeroes(HEROES) == ["D. Va", "Lucio", "Mercy", "Pharah"]
  {
    QueryIdIsWhere(HEROES, IsShort);
    RosterShortWhere();
  }

  /** Two names are longer than 8, so the count printed is 2. */
  lemma RosterLongHeroes()
    ensures LongHeroes(HEROES) == ["Soldier 76", "Reinhardt"]
    ensures LongHeroesCount(HEROES) == 2
  {
    WhereSix(HEROES, IsLong);
    RosterIsShortLong();
  }

  /** Which names contain "a". */
  lemma RosterHasAFront()
    ensures HasA(D_VA) && !HasA(LUCIO) && !HasA(MERCY)
  {
    ContainsSingleton(D_VA, 'a'); ContainsSingleton(LUCIO, 'a'); ContainsSingleton(MERCY, 'a');
  }

  lemma RosterHasABack()
    ensures !HasA(SOLDIER_76) && HasA(PHARAH) && HasA(REINHARDT)
  {
    ContainsSingleton(SOLDIER_76, 'a'); ContainsSingleton(PHARAH, 'a'); ContainsSingleton(REINHARDT, 'a');
  }

  lemma RosterHeroesWithA()
    ensures Where(HEROES, HasA) == [D_VA, PHARAH, REINHARDT]
  {
    WhereSix(HEROES, HasA);
    RosterHasAFront();
    RosterHasABack();
  }

  lemma ContainsATextDVa()
    ensures ContainsAText(D_VA) == "D. Va contains an 'a'"
  {
  }

  lemma ContainsATextPharah()
    ensures ContainsAText(PHARAH) == "Pharah contains an 'a'"
  {
  }

  lemma ContainsATextReinhardt()
    ensures ContainsAText(REINHARDT) == "Reinhardt contains an 'a'"
  {
  }

  /** The method-syntax query keeps "D. Va", "Pharah" and "Reinhardt" and gives their three lines. */
  lemma RosterMethodResult()
    ensures MethodResult(HEROES) == ["D. Va contains an 'a'", "Pharah contains an 'a'", "Reinhardt contains an 'a'"]
  {
    RosterHeroesWithA();
    SelectThree([D_VA, PHARAH, REINHARDT], ContainsAText);
    ContainsATextDVa();
    ContainsATextPharah();
    ContainsATextReinhardt();
  }

  /** Both the query-syntax and the method-syntax results are the same three lines. */
  lemma RosterContainsA()
    ensures QueryResult(HEROES) == ["D. Va contains an 'a'", "Pharah contains an 'a'", "Reinhardt contains an 'a'"]
    ensures MethodResult(HEROES) == QueryResult(HEROES)
  {
    RosterMethodResult();
    QueryMatchesMethod(HEROES);
  }

  /** Which names contain "i". */
  lemma RosterHasIFront()
    ensures !HasI(D_VA) && HasI(LUCIO) && !HasI(MERCY)
  {
    ContainsSingleton(D_VA, 'i'); ContainsSingleton(LUCIO, 'i'); ContainsSingleton(MERCY, 'i');
  }

  lemma RosterHasIBack()
    ensures HasI(SOLDIER_76) && !HasI(PHARAH) && HasI(REINHARDT)
  {
    ContainsSingleton(SOLDIER_76, 'i'); ContainsSingleton(PHARAH, 'i'); ContainsSingleton(REINHARDT, 'i');
  }

  /** heroesWithI, which Main computes but never prints. */
  lemma RosterHeroesWithI()
    ensures HeroesWithI(HEROES) == ["Lucio", "Soldier 76", "Reinhardt"]
  {
    QueryIdIsWhere(HEROES, HasI);
    WhereSix(HEROES, HasI);
    RosterHasIFront();
    RosterHasIBack();
  }

  lemma UnderscoreDVa()
    ensures Underscore(D_VA) == "D._Va"
  {
  }

  lemma UnderscoreSoldier()
    ensures Underscore(SOLDIER_76) == "Soldier_76"
  {
  }

  /** Underscored over a six-element roster, name by name. */
  lemma UnderscoredSix(s: seq<string>)
    requires |s| == 6
    ensures Underscored(s) == [Underscore(s[0]), Underscore(s[1]), Underscore(s[2]),
      Underscore(s[3]), Underscore(s[4]), Underscore(s[5])]
  {
    QueryAlwaysIsSelect(s, Underscore);
  }

  /** underscored, which Main computes but never prints. */
  lemma RosterUnderscored()
    ensures Underscored(HEROES) == ["D._Va", "Lucio", "Mercy", "Soldier_76", "Pharah", "Reinhardt"]
  {
    UnderscoredSix(HEROES);
    UnderscoreDVa();
    UnderscoreSoldier();
    ReplaceAbsent(LUCIO, ' ', '_');
    ReplaceAbsent(MERCY, ' ', '_');
    ReplaceAbsent(PHARAH, ' ', '_');
    ReplaceAbsent(REINHARDT, ' ', '_');
  }

  /** Which names contain "c". */
  lemma RosterHasCFront()
    ensures !HasC(D_VA) && HasC(LUCIO) && HasC(MERCY)
  {
    ContainsSingleton(D_VA, 'c'); ContainsSingleton(LUCIO, 'c'); ContainsSingleton(MERCY, 'c');
  }

  lemma RosterHasCBack()
    ensures !HasC(SOLDIER_76) && !HasC(PHARAH) && !HasC(REINHARDT)
  {
    ContainsSingleton(SOLDIER_76, 'c'); ContainsSingleton(PHARAH, 'c'); ContainsSingleton(REINHARDT, 'c');
  }

  lemma RosterHeroesC()
    ensures HeroesC(HEROES) == [LUCIO, MERCY]
  {
    WhereSix(HEROES, HasC);
    RosterHasCFront();
    RosterHasCBack();
  }

  lemma RosterLowerText()
    ensures ToLower(LUCIO) == "lucio" && ToLower(MERCY) == "mercy"
  {
  }

  /** Both contains-"c" loops print "lucio" and "mercy". */
  lemma RosterLowerHeroesWithC()
    ensures LowerHeroesWithC(HEROES) == ["lucio", "mercy"]
    ensures SameResult(HEROES) == ["lucio", "mercy"]
  {
    RosterHeroesC();
    RosterLowerText();
    assert Select([LUCIO, MERCY], ToLower) == [ToLower(LUCIO), ToLower(MERCY)];
  }

  lemma RosterGreetingsFront()
    ensures Greeting(D_VA) == "Introducing...D. Va!"
    ensures Greeting(LUCIO) == "Introducing...Lucio!"
    ensures Greeting(MERCY) == "Introducing...Mercy!"
  {
  }

  lemma RosterGreetingsBack()
    ensures Greeting(SOLDIER_76) == "Introducing...Soldier 76!"
    ensures Greeting(PHARAH) == "Introducing...Pharah!"
    ensures Greeting(REINHARDT) == "Introducing...Reinhardt!"
  {
  }

  /** One greeting per name, in roster order. */
  lemma RosterHeroName()
    ensures HeroName(HEROES) == ["Introducing...D. Va!", "Introducing...Lucio!", "Introducing...Mercy!",
      "Introducing...Soldier 76!", "Introducing...Pharah!", "Introducing...Reinhardt!"]
  {
    SelectSix(HEROES, Greeting);
    RosterGreetingsFront();
    RosterGreetingsBack();
  }

  /** Which names contain a space. */
  lemma RosterHasSpaceFront()
    ensures HasSpace(D_VA) && !HasSpace(LUCIO) && !HasSpace(MERCY)
  {
    ContainsSingleton(D_VA, ' '); ContainsSingleton(LUCIO, ' '); ContainsSingleton(MERCY, ' ');
  }

  lemma RosterHasSpaceBack()
    ensures HasSpace(SOLDIER_76) && !HasSpace(PHARAH) && !HasSpace(REINHARDT)
  {
    ContainsSingleton(SOLDIER_76, ' '); ContainsSingleton(PHARAH, ' '); ContainsSingleton(REINHARDT, ' ');
  }

  lemma RosterHeroesWithSpace()
    ensures Where(HEROES, HasSpace) == [D_VA, SOLDIER_76]
  {
    WhereSix(HEROES, HasSpace);
    RosterHasSpaceFront();
    RosterHasSpaceBack();
  }

  lemma RosterFirstSpace()
    ensures FirstSpace(D_VA) == 2 && FirstSpace(SOLDIER_76) == 7
  {
    IndexOfChar(D_VA, ' ');
    IndexOfChar(SOLDIER_76, ' ');
  }

  /** The spaceName loop prints 2 and 7. */
  lemma RosterSpaceName()
    ensures SpaceName(HEROES) == [2, 7]
  {
    QueryIsWhereSelect(HEROES, HasSpace, FirstSpace);
    RosterHeroesWithSpace();
    RosterFirstSpace();
    assert Select([D_VA, SOLDIER_76], FirstSpace) == [FirstSpace(D_VA), FirstSpace(SOLDIER_76)];
  }

  /** Which names contain '.' or '7'. */
  lemma RosterHasSpecialChar()
    ensures HasSpecialChar(D_VA) && !HasSpecialChar(LUCIO) && !HasSpecialChar(MERCY)
      && HasSpecialChar(SOLDIER_76) && !HasSpecialChar(PHARAH) && !HasSpecialChar(REINHARDT)
  {
  }

  /** The last loop prints "D. Va" and "Soldier 76". */
  lemma RosterHeroesWithSpecialChars()
    ensures HeroesWithSpecialChars(HEROES_LIST) == ["D. Va", "Soldier 76"]
  {
    assert Where(HEROES_LIST, HasSpecialChar) == ["D. Va", "Soldier 76"] by {
      WhereSix(HEROES_LIST, HasSpecialChar);
      RosterHasSpecialChar();
    }
  }

  lemma RosterCountText()
    ensures IntToString(2) == "2" && IntToString(7) == "7"
  {
  }

  /** The positions of the spaces, as the text Console.WriteLine prints for them. */
  lemma RosterSpaceText()
    ensures Select(SpaceName(HEROES), IntToString) == ["2", "7"]
  {
    RosterSpaceName();
    RosterCountText();
    assert Select([2, 7], IntToString) == [IntToString(2), IntToString(7)];
  }

  /** Everything Main prints, loop by loop. */
  lemma RosterOutput()
    ensures Output(HEROES, HEROES_LIST) ==
      ["Your short heroes are..."] + ["D. Va", "Lucio", "Mercy", "Pharah"]
      + ["2"]
      + ["queryResult:"] + ["D. Va contains an 'a'", "Pharah contains an 'a'", "Reinhardt contains an 'a'"]
      + ["\nmethodResult:"] + ["D. Va contains an 'a'", "Pharah contains an 'a'", "Reinhardt contains an 'a'"]
      + ["lucio", "mercy"]
      + ["lucio", "mercy"]
      + ["Introducing...D. Va!", "Introducing...Lucio!", "Introducing...Mercy!",
         "Introducing...Soldier 76!", "Introducing...Pharah!", "Introducing...Reinhardt!"]
      + ["2", "7"]
      + ["D. Va", "Soldier 76"]
  {
    RosterShortHeroes();
    RosterLongHeroes();
    RosterContainsA();
    RosterLowerHeroesWithC();
    RosterHeroName();
    RosterSpaceText();
    RosterHeroesWithSpecialChars();
    OutputFromParts(HEROES, HEROES_LIST, ["D. Va", "Lucio", "Mercy", "Pharah"], "2",
      ["D. Va contains an 'a'", "Pharah contains an 'a'", "Reinhardt contains an 'a'"],
      ["D. Va contains an 'a'", "Pharah contains an 'a'", "Reinhardt contains an 'a'"],
      ["lucio", "mercy"], ["lucio", "mercy"],
      ["Introducing...D. Va!", "Introducing...Lucio!", "Introducing...Mercy!",
       "Introducing...Soldier 76!", "Introducing...Pharah!", "Introducing...Reinhardt!"],
      ["2", "7"], ["D. Va", "Soldier 76"]);
  }
}
