# LearnLinq in Dafny

A model of `LearnLinq.Program.Main`, a small C# demonstration of LINQ. `Main`
builds a fixed roster of six hero names. It then runs a series of
independent queries over the roster: filters (`Where`, or a query expression
with a `where` clause), projections (`Select`, or a `select` clause) and one
`Count`. It prints most of the results, one per line.

The model has three modules:

- `Linq` (`linq.dfy`) holds the LINQ-to-objects operators as functions on
  sequences:
  - `Where`, `Select` and `Count`;
  - `Query`, a query expression `from x in s where p(x) select f(x)`, read as
    a one-pass comprehension.

  Their meaning is stated against `Positions`, a reference definition of the
  positions that satisfy a predicate. The lemma `QueryIsWhereSelect` proves
  that the query-syntax form equals the method-syntax form
  `s.Where(p).Select(f)`.
- `Strings` (`strings.dfy`) holds the `System.String` members the queries
  call:
  - ordinal `IndexOf` and `Contains`;
  - `Contains(char)`;
  - one-character `Replace`;
  - ASCII `ToLower`;
  - the decimal text `Console.WriteLine(int)` prints.
- `LearnLinq` (`program.dfy`) holds `Main` itself:
  - the roster, as the two list literals `heroes` and `heroesList`, each
    written out as in the source;
  - one predicate or projection per lambda;
  - one function per query variable, each with the property the query is
    meant to have, proved for every roster;
  - `Output`, the list of every line `Main` writes;
  - lemmas that compute each printed result for the fixed roster, ending with
    `RosterOutput`, everything `Main` prints.

The long-names count `Main` prints is 2, because both "Soldier 76" (10
characters) and "Reinhardt" (9) are longer than 8.

## Model

| member | source | states |
|---|---|---|
| Linq.Where | Program.cs:33 | the filtered sequence is never longer than its input |
| Linq.Select | Program.cs:46-47 | the projection has the input's length and holds f of each element at the same position |
| Linq.Count | Program.cs:36 | Count is the number of elements enumerated |
| Linq.Query | Program.cs:22 | a query expression yields at most one element per input element |
| Linq.Positions | Program.cs:33 | the reference positions are in range, satisfy p, include every satisfying position and increase strictly |
| Linq.WhereIsFilter | Program.cs:33 | Where keeps exactly the elements at the satisfying positions, in input order |
| Linq.WhereMembers | Program.cs:33 | an element is in the result iff it is in the input and satisfies the predicate |
| Linq.WhereAppend | Program.cs:33 | filtering distributes over concatenation, so Where never reorders |
| Linq.WhereSubMultiset | Program.cs:33 | Where only drops elements: its result is a sub-multiset of the input |
| Linq.WhereFrom | Program.cs:33 | filtering a suffix is what its first element contributes followed by the filtered rest |
| Linq.QueryIsWhereSelect | Program.cs:39-47 | `from x in s where p(x) select f(x)` equals `s.Where(p).Select(f)` |
| Linq.QueryIdIsWhere | Program.cs:22 | `from h in s where p(h) select h` equals `s.Where(p)` |
| Linq.QueryAlwaysIsSelect | Program.cs:67 | `from h in s select f(h)` equals `s.Select(f)` |
| Linq.QueryIsProjectedFilter | Program.cs:39-41 | a query expression yields f of exactly the satisfying elements, in order |
| Linq.SelectWhereIsProjectedFilter | Program.cs:44-47 | `s.Where(p).Select(f)` yields f of exactly the satisfying elements, in order |
| Strings.IndexOfFrom | Program.cs:107 | the result is -1 or a position at or after `from` where the value occurs |
| Strings.IndexOfFromFirst | Program.cs:107 | no occurrence lies between `from` and the position found; -1 means none at all |
| Strings.IndexOf | Program.cs:107 | IndexOf returns -1 or a position where the value occurs |
| Strings.IndexOfFirst | Program.cs:107 | IndexOf finds the first occurrence, and -1 means there is none |
| Strings.Contains | Program.cs:41 | a found value is never longer than the string it is found in |
| Strings.ContainsOccurs | Program.cs:41 | Contains(string) holds iff the value occurs somewhere in the string |
| Strings.ContainsChar | Program.cs:116 | Contains(char) holds iff some position of the string holds that character |
| Strings.OccursAtChar | Program.cs:41 | a one-character string occurs exactly where that character stands |
| Strings.ContainsSingleton | Program.cs:41 | Contains of a one-character string is membership of that character |
| Strings.IndexOfChar | Program.cs:107 | IndexOf(" ") is the first space, or -1 exactly when there is no space |
| Strings.ReplaceChar | Program.cs:67 | Replace(" ", "_") keeps the length, turns every old character into the new one, changes nothing else, and leaves no old character behind |
| Strings.ReplaceAbsent | Program.cs:67 | replacing a character that does not occur leaves the string unchanged |
| Strings.LowerChar | Program.cs:71 | an upper-case ASCII letter maps to its lower-case letter and every other character is unchanged |
| Strings.ToLower | Program.cs:71 | ToLower keeps the length, maps each character by LowerChar at its own position, leaves no upper-case letter and changes no other character |
| Strings.ToLowerIdempotent | Program.cs:71 | lower-casing twice is lower-casing once |
| Strings.DigitChar | Program.cs:36 | a digit's character is a decimal digit with that value |
| Strings.NatToString | Program.cs:36 | the text of a natural is a non-empty run of digits with no leading zero |
| Strings.NatToStringRoundTrip | Program.cs:36 | reading the printed digits back gives the number |
| Strings.IntToString | Program.cs:36 | the text of an int starts with '-' exactly when the int is negative, then comes a non-empty run of decimal digits with no leading zero, and those digits read back (DigitsValue) to the int's magnitude |
| LearnLinq.IsShort | Program.cs:22 | the short-names test: the name is shorter than 8 |
| LearnLinq.IsLong | Program.cs:33 | the long-names test: the name is longer than 8 |
| LearnLinq.IsEightLong | Program.cs:22-33 | the length that neither length test accepts |
| LearnLinq.HasA | Program.cs:41 | x.Contains("a") holds iff the name holds the character 'a' |
| LearnLinq.HasI | Program.cs:64 | hero.Contains("i") holds iff the name holds the character 'i' |
| LearnLinq.HasC | Program.cs:70 | h.Contains("c") holds iff the name holds the character 'c' |
| LearnLinq.HasSpace | Program.cs:107 | h.Contains(" ") holds iff the name holds a space |
| LearnLinq.HasSpecialChar | Program.cs:116 | the test holds iff the name holds a '.' or a '7' |
| LearnLinq.ContainsAText | Program.cs:41 | the line is the name followed by exactly " contains an 'a'" |
| LearnLinq.Underscore | Program.cs:67 | the underscored name keeps its length, each space becomes '_', every other character stays as it is, and no space is left |
| LearnLinq.Greeting | Program.cs:88 | the greeting is "Introducing...", then exactly the name, then '!' |
| LearnLinq.FirstSpace | Program.cs:107 | h.IndexOf(" ") is -1 exactly when the name has no space, and otherwise the position of its first space |
| LearnLinq.ShortHeroes | Program.cs:22 | shortHeroes holds exactly the names shorter than 8, in roster order |
| LearnLinq.LongHeroes | Program.cs:33 | longHeroes holds exactly the names longer than 8, in roster order |
| LearnLinq.LongHeroesCount | Program.cs:36 | the count is the number of roster positions holding a name longer than 8 |
| LearnLinq.QueryResult | Program.cs:39-41 | queryResult is the "contains an 'a'" text of exactly the names containing "a", in order |
| LearnLinq.MethodResult | Program.cs:44-47 | methodResult is the "contains an 'a'" text of exactly the names containing "a", in order |
| LearnLinq.HeroesWithI | Program.cs:63-64 | heroesWithI holds exactly the names containing "i", in order |
| LearnLinq.Underscored | Program.cs:67 | each underscored name keeps its length, has no space, and is its name with every space turned into '_' |
| LearnLinq.HeroesC | Program.cs:70 | heroesC holds exactly the names containing "c", in order |
| LearnLinq.LowerHeroesWithC | Program.cs:71 | lowerHeroesWithC is the lower-cased form of exactly the names containing "c", in order |
| LearnLinq.SameResult | Program.cs:79-80 | sameResult is the lower-cased form of exactly the names containing "c", in order |
| LearnLinq.HeroName | Program.cs:88 | heroName has one "Introducing...{name}!" line per name, in roster order |
| LearnLinq.SpaceName | Program.cs:106-107 | spaceName is the IndexOf(" ") of exactly the names containing a space, and each value is that name's first space |
| LearnLinq.HeroesWithSpecialChars | Program.cs:115-116 | heroesWithSpecialChars holds exactly the names containing '.' or '7', in order |
| LearnLinq.Output | Program.cs:25-121 | there are four fixed lines (three headings and the count) plus one line per printed result, and the first is "Your short heroes are..." |
| LearnLinq.OutputShape | Program.cs:25-121 | in a sequence made of a heading, a block, a line, a heading, a block, a heading and six blocks, each part stands right after the ones before it |
| LearnLinq.OutputLayout | Program.cs:25-121 | in the printed lines, the heading is line 0, the short names follow, then the count line, the "queryResult:" heading, queryResult, the "\nmethodResult:" heading, methodResult, lowerHeroesWithC, sameResult, heroName, the space positions and heroesWithSpecialChars, each at the position the lengths before it give, and nothing else |
| LearnLinq.RosterNames | Program.cs:11-19 | heroes is the six names "D. Va", "Lucio", "Mercy", "Soldier 76", "Pharah", "Reinhardt", in that order |
| LearnLinq.HeroesListIsHeroes | Program.cs:94-102 | heroesList holds the same names as heroes, in the same order |
| LearnLinq.ShortLongDisjoint | Program.cs:22-33 | no name is both short and long, and a name of length 8 is neither |
| LearnLinq.LengthClassesPartition | Program.cs:22-33 | the names shorter than 8, longer than 8 and of length 8 together account for the whole sequence |
| LearnLinq.ShortLongPartition | Program.cs:22-33 | shortHeroes, longHeroes and the names of length 8 together account for the whole roster |
| LearnLinq.QueryMatchesMethod | Program.cs:39-47 | the query-syntax and method-syntax contains-"a" queries agree on every roster |
| LearnLinq.TwoStepMatchesChained | Program.cs:70-80 | the two-step and the chained contains-"c" queries agree on every roster |
| LearnLinq.WhereSix | Program.cs:11-19 | Where over a six-name roster is the concatenation of what each name contributes |
| LearnLinq.SelectSix | Program.cs:88 | Select over a six-name roster is f of each name in turn |
| LearnLinq.RosterIsShortLong | Program.cs:11-19 | "Soldier 76" and "Reinhardt" are longer than 8; the other four names are shorter |
| LearnLinq.RosterShortWhere | Program.cs:22 | the short names are D. Va, Lucio, Mercy and Pharah |
| LearnLinq.RosterShortHeroes | Program.cs:25-30 | the lines after the heading are "D. Va", "Lucio", "Mercy", "Pharah" |
| LearnLinq.RosterLongHeroes | Program.cs:33-36 | longHeroes is "Soldier 76", "Reinhardt", and the printed count is 2 |
| LearnLinq.RosterHasAFront | Program.cs:41 | "D. Va" contains "a"; "Lucio" and "Mercy" do not |
| LearnLinq.RosterHasABack | Program.cs:41 | "Pharah" and "Reinhardt" contain "a"; "Soldier 76" does not |
| LearnLinq.RosterHeroesWithA | Program.cs:46 | the names containing "a" are D. Va, Pharah and Reinhardt |
| LearnLinq.ContainsATextDVa | Program.cs:41 | the line for "D. Va" is "D. Va contains an 'a'" |
| LearnLinq.ContainsATextPharah | Program.cs:41 | the line for "Pharah" is "Pharah contains an 'a'" |
| LearnLinq.ContainsATextReinhardt | Program.cs:41 | the line for "Reinhardt" is "Reinhardt contains an 'a'" |
| LearnLinq.RosterMethodResult | Program.cs:46-47 | the method-syntax query over heroes gives exactly "D. Va contains an 'a'", "Pharah contains an 'a'", "Reinhardt contains an 'a'" |
| LearnLinq.RosterContainsA | Program.cs:50-60 | both loops print "D. Va contains an 'a'", "Pharah contains an 'a'", "Reinhardt contains an 'a'" |
| LearnLinq.RosterHasIFront | Program.cs:64 | "Lucio" contains "i"; "D. Va" and "Mercy" do not |
| LearnLinq.RosterHasIBack | Program.cs:64 | "Soldier 76" and "Reinhardt" contain "i"; "Pharah" does not |
| LearnLinq.RosterHeroesWithI | Program.cs:63-64 | heroesWithI is "Lucio", "Soldier 76", "Reinhardt" |
| LearnLinq.UnderscoreDVa | Program.cs:67 | "D. Va" becomes "D._Va" |
| LearnLinq.UnderscoreSoldier | Program.cs:67 | "Soldier 76" becomes "Soldier_76" |
| LearnLinq.UnderscoredSix | Program.cs:67 | underscored over a six-name roster is the replacement applied to each name in turn |
| LearnLinq.RosterUnderscored | Program.cs:67 | underscored is "D._Va", "Lucio", "Mercy", "Soldier_76", "Pharah", "Reinhardt" |
| LearnLinq.RosterHasCFront | Program.cs:70 | "Lucio" and "Mercy" contain "c"; "D. Va" does not |
| LearnLinq.RosterHasCBack | Program.cs:70 | none of "Soldier 76", "Pharah", "Reinhardt" contains "c" |
| LearnLinq.RosterHeroesC | Program.cs:70 | heroesC is Lucio, Mercy |
| LearnLinq.RosterLowerText | Program.cs:71 | "Lucio" and "Mercy" lower-case to "lucio" and "mercy" |
| LearnLinq.RosterLowerHeroesWithC | Program.cs:73-85 | both contains-"c" loops print "lucio", "mercy" |
| LearnLinq.RosterGreetingsFront | Program.cs:88 | the greetings of "D. Va", "Lucio" and "Mercy", as text |
| LearnLinq.RosterGreetingsBack | Program.cs:88 | the greetings of "Soldier 76", "Pharah" and "Reinhardt", as text |
| LearnLinq.RosterHeroName | Program.cs:88-93 | the greeting loop prints one "Introducing...{name}!" per name, in roster order |
| LearnLinq.RosterHasSpaceFront | Program.cs:107 | "D. Va" contains a space; "Lucio" and "Mercy" do not |
| LearnLinq.RosterHasSpaceBack | Program.cs:107 | "Soldier 76" contains a space; "Pharah" and "Reinhardt" do not |
| LearnLinq.RosterHeroesWithSpace | Program.cs:107 | the names containing a space are D. Va and Soldier 76 |
| LearnLinq.RosterFirstSpace | Program.cs:107 | the first space is at index 2 in "D. Va" and at index 7 in "Soldier 76" |
| LearnLinq.RosterSpaceName | Program.cs:106-111 | the spaceName loop prints 2 and 7 |
| LearnLinq.RosterHasSpecialChar | Program.cs:116 | only "D. Va" and "Soldier 76" contain '.' or '7' |
| LearnLinq.RosterHeroesWithSpecialChars | Program.cs:115-121 | the last loop prints "D. Va" and "Soldier 76" |
| LearnLinq.RosterCountText | Program.cs:36 | 2 and 7 print as "2" and "7" |
| LearnLinq.RosterSpaceText | Program.cs:108-111 | the spaceName loop writes the lines "2" and "7" |
| LearnLinq.RosterOutput | Program.cs:9-122 | everything Main prints, loop by loop |

## Left out

- Console output is not modelled as I/O. `Output` is the list of strings passed to `Console.WriteLine`, in order.
- Line breaks are not split out. The heading `"\nmethodResult:"` is one element whose text begins with a newline character, as the source writes it.
- Deferred evaluation is not modelled. LINQ enumerates lazily, but the source never changes `heroes` after building it, so each query is modelled as the eagerly computed sequence it enumerates.
- Culture-sensitive behaviour is not modelled. `ToLower` is modelled on ASCII letters only, because the roster is ASCII. `Contains(string)`, `IndexOf(string)` and `Replace` are modelled ordinally; the roster's strings give the same results under any culture.
- `String.Replace` is modelled only for a one-character old value and a one-character new value, the only form the source uses (`" "` to `"_"`).
- .NET exceptions are not modelled. The null-argument exceptions of `Contains`, `IndexOf` and `Replace` cannot arise, because every argument is a non-null literal.
- The two `List<string>` objects are not modelled as separate mutable lists. They become two immutable sequences, each written out as its own literal, since the source only reads them.
- Linq.Where: its own contract is only the length bound. Which elements it keeps, and in what order, is stated by `WhereIsFilter` and `WhereMembers`.
- Linq.Query: its own contract is only the length bound. Its exact meaning is stated by `QueryIsProjectedFilter` and `QueryIsWhereSelect`.
- Strings.IndexOf: its own contract says only that a found position is an occurrence. That it is the first occurrence is stated by `IndexOfFirst`.
- Strings.Contains: its own contract says only that a found value fits in the string. That it holds exactly when the value occurs is stated by `ContainsOccurs`.
- LearnLinq.Output: its own contract gives only the number of lines and the first line. Where every other line stands is stated by `OutputLayout`, and the exact lines for the fixed roster by `RosterOutput`.
- String lengths and positions are counted in Unicode scalar values, because a Dafny `string` is a sequence of those. .NET's `Length` and `IndexOf` count UTF-16 code units. The two agree on the roster, which is ASCII. They would differ for a name holding a character outside the Basic Multilingual Plane, which affects `IsShort`, `IsLong` and `FirstSpace`.
- Number formatting under a culture is not modelled. `Console.WriteLine(int)` formats with the current culture. `Strings.IntToString` uses an ASCII '-' and the digits '0' to '9', which is what the current culture gives for the non-negative numbers `Main` prints (2, 2 and 7) unless it substitutes native digits.
