# Baby names extractor, modelled in Dafny

`babynames.py` reads the HTML pages of a "most popular baby names by year"
site. Its one piece of real logic, `extract_names`, makes a single pass over
the lines of a page and does three things:

- It takes the year from `Popularity in dddd`. A later line with a year
  overwrites the earlier one.
- It matches table rows `<tr align="right"><td>RANK</td><td>NAME1</td><td>NAME2</td>`
  anchored at the start of the line. Each matching row records two
  observations, `NAME1 RANK` and `NAME2 RANK`.
- It sorts the observations and folds them into a dict that keeps the
  numerically smallest rank per name. It then returns the year followed by
  one `name rank` string per name, in ascending order of name.

The project models that function and proves what it returns.

- `text.dfy` (module `Text`) holds the Python pieces the function relies on:
  - the ASCII reading of `\w`, `\d` and `\s`;
  - Python's ordering of `str` values (`LexLe`), with its reflexivity,
    totality, antisymmetry and transitivity;
  - `int()` of a digit string (`DecimalValue`).
- `patterns.dfy` (module `Patterns`) holds hand-written matchers for the
  three regular expressions.
  - The row matcher is proved sound and complete against a declarative
    description of the row text (`RowShape`).
  - The year matcher is proved to find the leftmost occurrence.
  - The rank matcher is proved to split `name + " " + rank` back into
    `name + " "` and `rank`.
- `sorting.dfy` (module `Sorting`) holds `list.sort` on strings as the
  ascending permutation of its input.
- `babynames.dfy` (module `BabyNames`) holds `ExtractNames`, written as the
  source's three loops:
  - `ScanLines` is the line scan;
  - `KeepBestRanks` is the dict fold;
  - `ListPairs` lists the dict items.

  What `ExtractNames` returns is stated against ghost specification functions:
  - `LastYear` is the year after a scan;
  - `Observations` is the observation list;
  - `Summarizes` says a list of (name, rank) pairs has one pair per name
    seen in a row, the best rank for each name, and names in strictly
    ascending order.

  The module also holds the lemmas stating what the result means.
- `samples.dfy` (module `Samples`) proves what the model returns on a three-line page: the
  heading `Popularity in 1990`, then the rows for ranks 1 and 2.
  `ExtractPage` proves that the output is exactly
  `["1990", "Ashley 2", "Christopher 2", "Jessica 1", "Michael 1"]`.

The result is a `seq<Option<string>>`. Only element 0, the year, can be
`None`; every name entry is `Some`.

Three details of the code decide the output:

- **Entries keep the space.** Group 1 of the rank pattern, `(\w+\s)`,
  includes the separator, and the key is emitted as it is. So an entry is
  `"Ashley 2"`, with the space. The example in the docstring,
  `'Aaliyah 91'`, has the space too.
- **The last year wins.** Every line with a year overwrites `year`, so the
  year is the one on the last such line. It is not frozen after the first.
- **Ties between equal integer ranks.** Two different rank strings with the
  same integer value, such as `"07"` and `"7"`, are not replaced (the update
  needs a strictly smaller `int`). The rank kept is therefore the first in
  sorted order, which is the smaller string. `RankLe` states this.

## Model

| member | source | states |
|---|---|---|
| BabyNames.ExtractNames | babynames.py:48-106 | The output has one element more than there are distinct names seen in table rows. The first element is the year of the last line that has one, or None. Each later element is a name, one space and a rank. Those (name, rank) pairs summarize the page: each pair has the name's best rank, the names strictly ascend, and every name seen is listed. |
| BabyNames.ScanLines | babynames.py:64-77 | After the loop, the year is `LastYear(lines)` and the observation list is `Observations(lines)`. This is the line-by-line scan, with its invariant over the lines read so far. |
| BabyNames.ScanStep | babynames.py:68-77 | One more line either overwrites the year with the line's year or leaves it unchanged. A row line appends `name1 rank` and then `name2 rank`; any other line appends nothing. |
| BabyNames.KeepBestRanks | babynames.py:83-94 | Folding the sorted observations gives a dict and its insertion order. The keys are `name + " "` and ascend strictly. Each key holds the rank of one of its observations, and that rank is kept over every other observation of the key: its integer value is no larger. |
| BabyNames.FoldNewKey | babynames.py:90-91 | A key not yet in the dict is inserted with its rank and appended to the insertion order. The keys still ascend, because the observations are sorted. |
| BabyNames.FoldSmallerRank | babynames.py:92-94 | A strictly smaller integer rank replaces the stored one. The insertion order does not change. |
| BabyNames.FoldKeepRank | babynames.py:92-94 | A rank whose integer value is not smaller leaves the dict unchanged, and the stored rank is still kept over it. |
| BabyNames.ListPairs | babynames.py:96-102 | Each dict item, in insertion order, becomes one string: the key (ending in a space) followed by the rank. |
| BabyNames.ResultSummarizes | babynames.py:96-104 | The year followed by the listed dict items satisfies every postcondition of `ExtractNames`. |
| BabyNames.FoldSummarizes | babynames.py:83-102 | The finished fold's pairs, name without its space and rank, summarize the page. Each key plus its rank equals name, space, rank. |
| BabyNames.SortedObservations | babynames.py:81 | Sorting keeps the page's observations: a string is in the sorted list exactly when it is an observation of the page. |
| BabyNames.ObservationOfRow | babynames.py:75-77 | Each name column of each matching row is in the observation list, with that row's rank. |
| BabyNames.RowOfObservation | babynames.py:75-77 | Every observation is `name + " " + rank` for some row that lists `name` at `rank`. |
| BabyNames.ObservationParts | babynames.py:79-88 | The rank pattern splits every observation into a key, name and space, and the row's rank. |
| BabyNames.NameOrder | babynames.py:81 | For observations of two different names, their string order is the order of the names, because the space sorts below every word character. |
| BabyNames.KeyOrder | babynames.py:81-88 | The same holds for keys: the string order of two observations decides the order of their keys. |
| BabyNames.KeyIsNameAndSpace | babynames.py:79-88 | A dict key is a name followed by exactly one space. |
| BabyNames.SummaryLength | babynames.py:90-104 | A summary has exactly as many entries as there are distinct names seen in rows. |
| BabyNames.SummaryUnique | babynames.py:81-102 | A page has one summary: two lists that both summarize the same lines are equal. |
| BabyNames.BestRankUnique | babynames.py:90-94 | A name has one best rank. |
| BabyNames.SummaryNames | babynames.py:98-102 | The names listed in a summary are exactly the names seen in rows. |
| BabyNames.BestRankIsMinimum | babynames.py:93 | The best rank is no larger, as an integer, than any rank observed for the name. |
| BabyNames.NineBeatsTen | babynames.py:93 | `"10"` sorts before `"9"` as a string, yet rank 9 is kept over rank 10. |
| BabyNames.LastYearNone | babynames.py:58-73 | The year stays None exactly when no line matches the year pattern. |
| BabyNames.LastYearIsLast | babynames.py:72-73 | The year is the year of the last line that has one. |
| BabyNames.ScanAppend | babynames.py:65-77 | Scanning `a + b` gives the observations of `a` followed by those of `b`. The year is that of `b` if `b` has one, otherwise that of `a`. |
| BabyNames.ScanIgnoresLine | babynames.py:68-77 | Inserting a line that matches neither pattern changes neither the year nor the observations. |
| BabyNames.SeenIgnoresLine | babynames.py:70-75 | Inserting a line that is not a row changes no seen name. |
| BabyNames.BestRankIgnoresLine | babynames.py:70-77 | Inserting a line that is not a row changes no best rank. |
| BabyNames.SummaryIgnoresLine | babynames.py:70-77 | Inserting a line that is not a row changes nothing in the summary. |
| BabyNames.SeenIsListed | babynames.py:75-77 | A name is seen exactly when some row lists it. |
| BabyNames.NoRowsNoNames | babynames.py:104 | Without table rows no name is seen, so the output is the year alone. |
| Patterns.MatchRowSound | babynames.py:61-70 | Whatever the row matcher accepts begins with `<tr`, one whitespace, a word attribute `="` word `"><td>`, then digits `</td><td>` word `</td><td>` word `</td>`, and the returned columns are exactly those pieces. |
| Patterns.MatchRowComplete | babynames.py:61-70 | Every line that begins with that shape is accepted, with exactly its columns. Text after the row is allowed. |
| Patterns.MatchRowWellFormed | babynames.py:61-62 | An accepted row has a nonempty digit rank and two nonempty word names. |
| Patterns.RowStartSound | babynames.py:62 | The opening `<tr\s\w+="\w+"><td>` the matcher consumes is exactly that text. |
| Patterns.RowStartComplete | babynames.py:62 | Any such opening is consumed in full. |
| Patterns.RowCellsSound | babynames.py:62 | The three cells the matcher consumes are exactly `rank</td><td>name1</td><td>name2</td>`. |
| Patterns.RowCellsComplete | babynames.py:62 | Any such cells are consumed in full. |
| Patterns.RunEnd | babynames.py:62 | The greedy run of a character class ends at the first character outside it, and every character before that is in the class. |
| Patterns.RunEndUnique | babynames.py:62 | A run of the class that stops before a character outside it is the greedy run. |
| Patterns.FieldSound | babynames.py:62 | A field the matcher accepts is a nonempty token of the class followed by the closing literal. |
| Patterns.FieldComplete | babynames.py:62 | A nonempty token followed by its closing literal is accepted, ending where the token ends. |
| Patterns.FindYearFrom | babynames.py:60-68 | Returns the leftmost position at or after `from` where `Popularity in ` and four digits start, or None when there is none. |
| Patterns.YearOf | babynames.py:68-73 | A year found is four digits. |
| Patterns.YearOfFirstMatch | babynames.py:60-73 | A line yields a year exactly when the pattern occurs in it. The year is the four digits of the leftmost occurrence. |
| Patterns.SplitRankOfObservation | babynames.py:79-88 | The rank pattern splits `name + " " + rank` into `name + " "` (group 1) and `rank` (group 2). |
| Sorting.Sort | babynames.py:81 | The result is in ascending string order and is a permutation of the input. |
| Sorting.Insert | babynames.py:81 | Inserting into a sorted list keeps it sorted and adds exactly the one element. |
| Text.LexLeTotal | babynames.py:81 | Any two strings are ordered one way or the other. |
| Text.LexLeAntisymmetric | babynames.py:81 | Two strings that are each at most the other are equal. |
| Text.LexLeTransitive | babynames.py:81 | The string order is transitive. |
| Samples.HeadingYear | babynames.py:60-73 | The heading `<h3 align="center">Popularity in 1990</h3>` yields the year `1990`. |
| Samples.AlignedRow | babynames.py:61-70 | A row with the attribute `align="right"` is accepted with its own columns. |
| Samples.FirstRowObservations | babynames.py:75-77 | The row for rank 1 contributes `Michael 1` and then `Jessica 1`. |
| Samples.PageYear | babynames.py:72-73 | The year of the three-line page is `1990`. |
| Samples.PageObservations | babynames.py:65-77 | The page's observations, in page order, are `Michael 1`, `Jessica 1`, `Christopher 2` and `Ashley 2`. |
| Samples.TwoRowsSummary | babynames.py:81-102 | The pairs Ashley 2, Christopher 2, Jessica 1 and Michael 1 summarize the page. |
| Samples.ExtractPage | babynames.py:48-106 | `extract_names` on the page returns exactly `["1990", "Ashley 2", "Christopher 2", "Jessica 1", "Michael 1"]`. |

## Left out

- Opening the file and iterating over it (babynames.py:64-65): the model takes the lines as a `seq<string>`. Each line's trailing newline may be kept or dropped. It changes no match, because the row pattern is anchored at the start with any text after it, and the year pattern is searched anywhere.
- `create_parser` (babynames.py:109-119): argument parsing is a library wrapper.
- `main` (babynames.py:122-161): newline-joining, printing and writing `.summary` files are I/O. Joining a `None` year raises there, which is outside `extract_names`.
- Unicode character classes: `\w`, `\d` and `\s` are read over ASCII only. `\s` is space, 9-13 and 28-31.
- A general regular-expression engine: only the three fixed patterns are modelled. `re.findall` is modelled through its first match, the only one the code reads.
- Sorting.Sort: `names.sort()` sorts in place with Python's own algorithm. The model computes the same result, the unique ascending permutation, as a verified insertion sort on values. It does not model the in-place update or the algorithm.
- BabyNames.KeepBestRanks: Python's dict is modelled as its insertion-ordered key list plus a map from key to rank. Hashing and table internals are not modelled.
- BabyNames.ExtractNames: the function body is split into the methods `ScanLines`, `KeepBestRanks` and `ListPairs`, one per loop of the source. The `names = []` reset (line 96) is a fresh local list.
