/**
 * `extract_names`: one pass over the lines of a "baby names by year" page
 * that records the year and one observation string `name + ' ' + rank` for
 * each name column of each table row, then a sort of the observations, a
 * fold that keeps the numerically smallest rank per name in a dictionary,
 * and the assembly of `[year, 'name rank', ...]` from the dictionary in
 * insertion order.
 */
module BabyNames {
  import opened Text
  import opened Patterns
  import opened Sorting

  // ---------------------------------------------------------------------
  // The state the scan builds, as functions of the lines read so far
  // ---------------------------------------------------------------------

  /** What one line appends to the observation list: both name columns of a matching row, each with the row's rank. */
  function LineObservations(line: string): seq<string> {
    match MatchRow(line)
    case None => []
    case Some(row) => [row.name1 + " " + row.rank, row.name2 + " " + row.rank]
  }

  /** The observation list after scanning `lines`. */
  function Observations(lines: seq<string>): seq<string> {
    if lines == [] then []
    else Observations(lines[..|lines| - 1]) + LineObservations(lines[|lines| - 1])
  }

  /** The year after scanning `lines`: each line with a year match overwrites it. */
  function LastYear(lines: seq<string>): Option<string> {
    if lines == [] then None
    else if YearOf(lines[|lines| - 1]).Some? then YearOf(lines[|lines| - 1])
    else LastYear(lines[..|lines| - 1])
  }

  // ---------------------------------------------------------------------
  // What the result means, stated over the rows of the page
  // ---------------------------------------------------------------------

  /** Line `i` is a table row that lists `name` in one of its two name columns. */
  ghost predicate RowNames(lines: seq<string>, i: int, name: string) {
    0 <= i < |lines| && MatchRow(lines[i]).Some?
    && (MatchRow(lines[i]).value.name1 == name || MatchRow(lines[i]).value.name2 == name)
  }

  /** Some table row lists `name` at `rank`. */
  ghost predicate Observed(lines: seq<string>, name: string, rank: string) {
    exists i :: RowNames(lines, i, name) && MatchRow(lines[i]).value.rank == rank
  }

  /**
   * Rank `a` is kept over rank `b`: its integer value is smaller, or the
   * values are equal and `a` comes first in string order (the sorted fold
   * meets it first and replaces only on a strictly smaller integer).
   */
  ghost predicate RankLe(a: string, b: string) {
    DecimalValue(a) < DecimalValue(b) || (DecimalValue(a) == DecimalValue(b) && LexLe(a, b))
  }

  /** `rank` is the best rank observed for `name`: observed, and kept over every rank observed for it. */
  ghost predicate IsBestRank(lines: seq<string>, name: string, rank: string) {
    Observed(lines, name, rank)
    && forall i :: RowNames(lines, i, name) ==> RankLe(rank, MatchRow(lines[i]).value.rank)
  }

  /** The distinct names that appear in some table row. */
  ghost function SeenNames(lines: seq<string>): set<string> {
    (set i | 0 <= i < |lines| && MatchRow(lines[i]).Some? :: MatchRow(lines[i]).value.name1)
    + (set i | 0 <= i < |lines| && MatchRow(lines[i]).Some? :: MatchRow(lines[i]).value.name2)
  }

  /**
   * `entries` lists (name, rank) pairs in strictly ascending order of name,
   * one for every name seen in a row, each with that name's best rank.
   */
  ghost predicate Summarizes(lines: seq<string>, entries: seq<(string, string)>) {
    && (forall e :: 0 <= e < |entries| ==> IsBestRank(lines, entries[e].0, entries[e].1))
    && (forall a, b :: 0 <= a < b < |entries| ==> LexLt(entries[a].0, entries[b].0))
    && (forall name :: name in SeenNames(lines) ==> exists e :: 0 <= e < |entries| && entries[e].0 == name)
  }

  // ---------------------------------------------------------------------
  // The extractor
  // ---------------------------------------------------------------------

  /**
   * `extract_names` over the lines of a page. `result[0]` is the year
   * (`None` when no line has one) and every later element is a name
   * followed by a space and its best rank; `entries` names those pairs.
   */
  method ExtractNames(lines: seq<string>) returns (result: seq<Option<string>>, ghost entries: seq<(string, string)>)
    ensures |result| == |entries| + 1 == |SeenNames(lines)| + 1
    ensures result[0] == LastYear(lines)
    ensures forall e :: 1 <= e < |result| ==> result[e] == Some(entries[e - 1].0 + " " + entries[e - 1].1)
    ensures Summarizes(lines, entries)
  {
    var year, names := ScanLines(lines);
    ghost var observed := names;
    names := Sort(names);
    SortedObservations(lines, observed, names);
    var dictKeys, babyDict, origin := KeepBestRanks(lines, names);
    var pairs := ListPairs(dictKeys, babyDict);
    result := [year] + pairs;
    entries := ResultSummarizes(lines, names, dictKeys, babyDict, origin, result);
  }

  /**
   * The year followed by the dictionary's items, in insertion order, is the
   * year of the last line with one followed by the summary of the page.
   */
  lemma ResultSummarizes(lines: seq<string>, sorted: seq<string>, dictKeys: seq<string>, babyDict: map<string, string>,
                         origin: map<string, nat>, result: seq<Option<string>>)
    returns (entries: seq<(string, string)>)
    requires Folded(sorted, |sorted|, dictKeys, babyDict, origin)
    requires forall s :: s in sorted <==> s in Observations(lines)
    requires |result| == |dictKeys| + 1 && result[0] == LastYear(lines)
    requires forall f :: 0 <= f < |dictKeys| ==> result[1..][f] == Some(dictKeys[f] + babyDict[dictKeys[f]])
    ensures |result| == |entries| + 1 == |SeenNames(lines)| + 1
    ensures result[0] == LastYear(lines)
    ensures forall e :: 1 <= e < |result| ==> result[e] == Some(entries[e - 1].0 + " " + entries[e - 1].1)
    ensures Summarizes(lines, entries)
  {
    entries := seq(|dictKeys|, f requires 0 <= f < |dictKeys| && dictKeys[f] in babyDict =>
                     (NameOf(dictKeys[f]), babyDict[dictKeys[f]]));
    FoldSummarizes(lines, sorted, dictKeys, babyDict, origin, entries);
    SummaryLength(lines, entries);
    forall e | 1 <= e < |result| ensures result[e] == Some(entries[e - 1].0 + " " + entries[e - 1].1) {
      assert result[e] == result[1..][e - 1];
    }
  }

  /** babynames.py lines 64-77: the year of the last line with one, and both observations of every table row. */
  method ScanLines(lines: seq<string>) returns (year: Option<string>, names: seq<string>)
    ensures year == LastYear(lines)
    ensures names == Observations(lines)
  {
    names := [];
    year := None;
    var i := 0;
    while i < |lines|
      invariant 0 <= i <= |lines|
      invariant year == LastYear(lines[..i])
      invariant names == Observations(lines[..i])
    {
      var yearMatch := YearOf(lines[i]);
      var rankMatch := MatchRow(lines[i]);
      ScanStep(lines, i);
      if yearMatch.Some? {
        year := yearMatch;
      }
      if rankMatch.Some? {
        var row := rankMatch.value;
        names := names + [row.name1 + " " + row.rank];
        names := names + [row.name2 + " " + row.rank];
      }
      i := i + 1;
    }
    assert lines[..|lines|] == lines;
  }

  /**
   * babynames.py lines 83-94: the fold over the sorted observations that keeps, per
   * key, the rank met first among those with the smallest integer value.
   */
  method KeepBestRanks(ghost lines: seq<string>, names: seq<string>)
    returns (dictKeys: seq<string>, babyDict: map<string, string>, ghost origin: map<string, nat>)
    requires Sorted(names)
    requires forall s :: s in names ==> s in Observations(lines)
    ensures Folded(names, |names|, dictKeys, babyDict, origin)
    ensures forall key :: key in babyDict <==> key in dictKeys
    ensures KeysAscend(dictKeys)
    ensures forall key :: key in babyDict ==> exists t :: 0 <= t < |names| && SplitRank(names[t]) == Some((key, babyDict[key]))
    ensures forall t :: 0 <= t < |names| && SplitRank(names[t]).Some? ==>
              var (key, ranking) := SplitRank(names[t]).value;
              key in babyDict && RankLe(babyDict[key], ranking)
  {
    dictKeys := [];
    babyDict := map[];
    origin := map[];
    var j := 0;
    while j < |names|
      invariant 0 <= j <= |names|
      invariant Folded(names, j, dictKeys, babyDict, origin)
    {
      ObservationParts(lines, names[j]);
      var split := SplitRank(names[j]);
      if split.Some? {
        var (key, ranking) := split.value;
        if key !in babyDict {
          FoldNewKey(lines, names, j, dictKeys, babyDict, origin);
          babyDict := babyDict[key := ranking];
          dictKeys := dictKeys + [key];
          origin := origin[key := j];
        } else if DecimalValue(ranking) < DecimalValue(babyDict[key]) {
          FoldSmallerRank(names, j, dictKeys, babyDict, origin);
          babyDict := babyDict[key := ranking];
          origin := origin[key := j];
        } else {
          FoldKeepRank(lines, names, j, dictKeys, babyDict, origin);
        }
      }
      j := j + 1;
    }
    forall key | key in babyDict
      ensures exists t :: 0 <= t < |names| && SplitRank(names[t]) == Some((key, babyDict[key]))
    {
      var t := origin[key];
      assert SplitRank(names[t]) == Some((key, babyDict[key]));
    }
  }

  /** babynames.py lines 96-102: each dictionary item, in insertion order, as the key (which ends in a space) followed by the rank. */
  method ListPairs(dictKeys: seq<string>, babyDict: map<string, string>) returns (pairs: seq<Option<string>>)
    requires forall key :: key in dictKeys ==> key in babyDict
    ensures |pairs| == |dictKeys|
    ensures forall f :: 0 <= f < |dictKeys| ==> pairs[f] == Some(dictKeys[f] + babyDict[dictKeys[f]])
  {
    pairs := [];
    var e := 0;
    while e < |dictKeys|
      invariant 0 <= e <= |dictKeys|
      invariant |pairs| == e
      invariant forall f :: 0 <= f < e ==> pairs[f] == Some(dictKeys[f] + babyDict[dictKeys[f]])
    {
      var key := dictKeys[e];
      var pair := key + babyDict[key];
      pairs := pairs + [Some(pair)];
      e := e + 1;
    }
  }

  /** One more line scanned: the year and observation list follow babynames.py lines 68-77. */
  lemma ScanStep(lines: seq<string>, i: nat)
    requires i < |lines|
    ensures YearOf(lines[i]).Some? ==> LastYear(lines[..i + 1]) == YearOf(lines[i])
    ensures YearOf(lines[i]).None? ==> LastYear(lines[..i + 1]) == LastYear(lines[..i])
    ensures MatchRow(lines[i]).None? ==> Observations(lines[..i + 1]) == Observations(lines[..i])
    ensures MatchRow(lines[i]).Some? ==>
              var row := MatchRow(lines[i]).value;
              Observations(lines[..i + 1]) == Observations(lines[..i]) + [row.name1 + " " + row.rank] + [row.name2 + " " + row.rank]
  {
    assert lines[..i + 1][..i] == lines[..i];
    assert lines[..i + 1][i] == lines[i];
  }

  // ---------------------------------------------------------------------
  // Dictionary keys
  // ---------------------------------------------------------------------

  /** A dictionary key: a name followed by the single space that group 1 of the rank pattern keeps. */
  predicate IsKey(key: string) {
    |key| >= 2 && key[|key| - 1] == ' ' && IsToken(key[..|key| - 1], Word)
  }

  /** The name inside a dictionary key. */
  function NameOf(key: string): string {
    if key == [] then [] else key[..|key| - 1]
  }

  lemma KeyIsNameAndSpace(key: string)
    requires IsKey(key)
    ensures key == NameOf(key) + " "
  {
  }

  // ---------------------------------------------------------------------
  // Observation strings
  // ---------------------------------------------------------------------

  /** Each name column of each row is in the observation list, with the row's rank. */
  lemma {:induction false} ObservationOfRow(lines: seq<string>, i: int, name: string)
    requires RowNames(lines, i, name)
    ensures name + " " + MatchRow(lines[i]).value.rank in Observations(lines)
    decreases |lines|
  {
    var front := lines[..|lines| - 1];
    if i < |lines| - 1 {
      assert front[i] == lines[i];
      ObservationOfRow(front, i, name);
    }
  }

  /** Every observation comes from a name column of some row, with the row's rank. */
  lemma {:induction false} RowOfObservation(lines: seq<string>, s: string) returns (i: int, name: string)
    requires s in Observations(lines)
    ensures RowNames(lines, i, name) && s == name + " " + MatchRow(lines[i]).value.rank
    decreases |lines|
  {
    var front := lines[..|lines| - 1];
    if s in Observations(front) {
      i, name := RowOfObservation(front, s);
      assert front[i] == lines[i];
    } else {
      i := |lines| - 1;
      var row := MatchRow(lines[i]).value;
      name := if s == row.name1 + " " + row.rank then row.name1 else row.name2;
    }
  }

  /** The rank pattern splits an observation into a dictionary key and a rank observed for that key's name. */
  lemma ObservationParts(lines: seq<string>, s: string)
    requires s in Observations(lines)
    ensures SplitRank(s).Some?
    ensures IsKey(SplitRank(s).value.0) && s == SplitRank(s).value.0 + SplitRank(s).value.1
    ensures Observed(lines, NameOf(SplitRank(s).value.0), SplitRank(s).value.1)
  {
    var i, name := RowOfObservation(lines, s);
    var rank := MatchRow(lines[i]).value.rank;
    MatchRowWellFormed(lines[i]);
    SplitRankOfObservation(name, rank);
    assert NameOf(name + " ") == name;
  }

  /** Observation strings sort by name first: the space sorts below every word character. */
  lemma {:induction false} NameOrder(n1: string, r1: string, n2: string, r2: string)
    requires AllIn(n1, Word) && AllIn(n2, Word)
    requires LexLe(n1 + " " + r1, n2 + " " + r2)
    ensures LexLe(n1, n2)
    ensures n1 == n2 ==> LexLe(r1, r2)
    decreases |n1|
  {
    var a, b := n1 + " " + r1, n2 + " " + r2;
    if n1 == [] {
      if n2 == [] {
        assert a[0] == b[0] == ' ';
        assert a[1..] == r1 && b[1..] == r2;
      }
    } else if n2 == [] {
      WordCharsAboveSpace(n1[0]);
    } else {
      assert a[0] == n1[0] && b[0] == n2[0];
      if n1[0] == n2[0] {
        assert a[1..] == n1[1..] + " " + r1;
        assert b[1..] == n2[1..] + " " + r2;
        NameOrder(n1[1..], r1, n2[1..], r2);
      }
    }
  }

  /** `NameOrder` for observations written as dictionary key plus rank. */
  lemma KeyOrder(k1: string, r1: string, k2: string, r2: string)
    requires IsKey(k1) && IsKey(k2)
    requires LexLe(k1 + r1, k2 + r2)
    ensures LexLe(NameOf(k1), NameOf(k2))
    ensures k1 == k2 ==> LexLe(r1, r2)
  {
    KeyIsNameAndSpace(k1);
    KeyIsNameAndSpace(k2);
    assert k1 + r1 == NameOf(k1) + " " + r1;
    assert k2 + r2 == NameOf(k2) + " " + r2;
    NameOrder(NameOf(k1), r1, NameOf(k2), r2);
  }

  /** Sorting keeps the same observations. */
  lemma SortedObservations(lines: seq<string>, observed: seq<string>, sorted: seq<string>)
    requires observed == Observations(lines)
    requires multiset(sorted) == multiset(observed)
    ensures forall s :: s in sorted <==> s in Observations(lines)
  {
    forall s ensures s in sorted <==> s in Observations(lines) {
      assert s in sorted <==> s in multiset(sorted);
      assert s in observed <==> s in multiset(observed);
    }
  }

  // ---------------------------------------------------------------------
  // The fold over the sorted observations (babynames.py lines 83-94)
  // ---------------------------------------------------------------------

  /**
   * After the first `j` sorted observations: the dictionary's keys are the
   * keys in insertion order, which ascend by name; the entry for each key
   * comes from the folded observation `origin[key]`; and each folded
   * observation's rank is beaten or matched by the entry for its key.
   */
  ghost predicate Folded(sorted: seq<string>, j: nat, dictKeys: seq<string>, babyDict: map<string, string>,
                         origin: map<string, nat>)
  {
    && j <= |sorted|
    && (forall key :: key in babyDict <==> key in dictKeys)
    && KeysAscend(dictKeys)
    && (forall key :: key in babyDict ==>
          IsKey(key) && key in origin && origin[key] < j && SplitRank(sorted[origin[key]]) == Some((key, babyDict[key])))
    && (forall t :: 0 <= t < j ==>
          && SplitRank(sorted[t]).Some?
          && SplitRank(sorted[t]).value.0 in babyDict
          && RankLe(babyDict[SplitRank(sorted[t]).value.0], SplitRank(sorted[t]).value.1))
  }

  /** Keys in insertion order ascend strictly by name. */
  ghost predicate KeysAscend(dictKeys: seq<string>) {
    forall a, b :: 0 <= a < b < |dictKeys| ==> LexLt(NameOf(dictKeys[a]), NameOf(dictKeys[b]))
  }

  /** What the fold steps rely on: the list is sorted, holds observations, and `j` is in range. */
  ghost predicate FoldStepReady(lines: seq<string>, sorted: seq<string>, j: nat, dictKeys: seq<string>,
                                babyDict: map<string, string>, origin: map<string, nat>)
  {
    && j < |sorted| && Sorted(sorted)
    && (forall s :: s in sorted ==> s in Observations(lines))
    && Folded(sorted, j, dictKeys, babyDict, origin)
  }

  /** A key in the dictionary comes from an earlier observation, so it does not come after the current one. */
  lemma EarlierKey(lines: seq<string>, sorted: seq<string>, j: nat, dictKeys: seq<string>, babyDict: map<string, string>,
                   origin: map<string, nat>, k: string)
    requires FoldStepReady(lines, sorted, j, dictKeys, babyDict, origin)
    requires k in babyDict
    ensures SplitRank(sorted[j]).Some?
    ensures LexLe(NameOf(k), NameOf(SplitRank(sorted[j]).value.0))
    ensures k == SplitRank(sorted[j]).value.0 ==> LexLe(babyDict[k], SplitRank(sorted[j]).value.1)
  {
    var t := origin[k];
    ObservationParts(lines, sorted[t]);
    ObservationParts(lines, sorted[j]);
    var (key, ranking) := SplitRank(sorted[j]).value;
    KeyOrder(k, babyDict[k], key, ranking);
  }

  /** A key met for the first time comes after every key already inserted. */
  lemma NewKeyLast(lines: seq<string>, sorted: seq<string>, j: nat, dictKeys: seq<string>, babyDict: map<string, string>,
                   origin: map<string, nat>)
    requires FoldStepReady(lines, sorted, j, dictKeys, babyDict, origin)
    requires SplitRank(sorted[j]).Some? && SplitRank(sorted[j]).value.0 !in babyDict
    ensures IsKey(SplitRank(sorted[j]).value.0)
    ensures KeysAscend(dictKeys + [SplitRank(sorted[j]).value.0])
  {
    var key := SplitRank(sorted[j]).value.0;
    ObservationParts(lines, sorted[j]);
    KeyIsNameAndSpace(key);
    forall a | 0 <= a < |dictKeys| ensures LexLt(NameOf(dictKeys[a]), NameOf(key)) {
      var k := dictKeys[a];
      EarlierKey(lines, sorted, j, dictKeys, babyDict, origin, k);
      KeyIsNameAndSpace(k);
    }
    var keys' := dictKeys + [key];
    forall a, b | 0 <= a < b < |keys'| ensures LexLt(NameOf(keys'[a]), NameOf(keys'[b])) {
      assert keys'[a] == dictKeys[a];
      if b < |dictKeys| {
        assert keys'[b] == dictKeys[b];
      }
    }
  }

  /** Inserting a key met for the first time (babynames.py line 91). */
  lemma FoldNewKey(lines: seq<string>, sorted: seq<string>, j: nat, dictKeys: seq<string>, babyDict: map<string, string>,
                   origin: map<string, nat>)
    requires FoldStepReady(lines, sorted, j, dictKeys, babyDict, origin)
    requires SplitRank(sorted[j]).Some? && SplitRank(sorted[j]).value.0 !in babyDict
    ensures var (key, ranking) := SplitRank(sorted[j]).value;
            Folded(sorted, j + 1, dictKeys + [key], babyDict[key := ranking], origin[key := j])
  {
    NewKeyLast(lines, sorted, j, dictKeys, babyDict, origin);
    LexLeReflexive(SplitRank(sorted[j]).value.1);
  }

  /** Replacing a key's rank by a numerically smaller one (babynames.py line 94). */
  lemma FoldSmallerRank(sorted: seq<string>, j: nat, dictKeys: seq<string>, babyDict: map<string, string>,
                        origin: map<string, nat>)
    requires j < |sorted| && Folded(sorted, j, dictKeys, babyDict, origin)
    requires SplitRank(sorted[j]).Some? && SplitRank(sorted[j]).value.0 in babyDict
    requires DecimalValue(SplitRank(sorted[j]).value.1) < DecimalValue(babyDict[SplitRank(sorted[j]).value.0])
    ensures var (key, ranking) := SplitRank(sorted[j]).value;
            Folded(sorted, j + 1, dictKeys, babyDict[key := ranking], origin[key := j])
  {
    var (key, ranking) := SplitRank(sorted[j]).value;
    LexLeReflexive(ranking);
  }

  /** Keeping a key's rank when the new one is not numerically smaller (the test at babynames.py line 93 fails). */
  lemma FoldKeepRank(lines: seq<string>, sorted: seq<string>, j: nat, dictKeys: seq<string>, babyDict: map<string, string>,
                     origin: map<string, nat>)
    requires FoldStepReady(lines, sorted, j, dictKeys, babyDict, origin)
    requires SplitRank(sorted[j]).Some? && SplitRank(sorted[j]).value.0 in babyDict
    requires !(DecimalValue(SplitRank(sorted[j]).value.1) < DecimalValue(babyDict[SplitRank(sorted[j]).value.0]))
    ensures Folded(sorted, j + 1, dictKeys, babyDict, origin)
  {
    EarlierKey(lines, sorted, j, dictKeys, babyDict, origin, SplitRank(sorted[j]).value.0);
  }

  /** Each observation of a row's name column is folded under the key `name + " "`. */
  lemma RowFolded(lines: seq<string>, sorted: seq<string>, dictKeys: seq<string>, babyDict: map<string, string>,
                  origin: map<string, nat>, i: int, name: string)
    requires Folded(sorted, |sorted|, dictKeys, babyDict, origin)
    requires forall s :: s in Observations(lines) ==> s in sorted
    requires RowNames(lines, i, name)
    ensures name + " " in babyDict && RankLe(babyDict[name + " "], MatchRow(lines[i]).value.rank)
  {
    var rank := MatchRow(lines[i]).value.rank;
    ObservationOfRow(lines, i, name);
    var u :| 0 <= u < |sorted| && sorted[u] == name + " " + rank;
    MatchRowWellFormed(lines[i]);
    SplitRankOfObservation(name, rank);
  }

  /** The entry kept for a key is the best rank of that key's name. */
  lemma EntryIsBest(lines: seq<string>, sorted: seq<string>, dictKeys: seq<string>, babyDict: map<string, string>,
                    origin: map<string, nat>, key: string)
    requires Folded(sorted, |sorted|, dictKeys, babyDict, origin)
    requires forall s :: s in sorted <==> s in Observations(lines)
    requires key in babyDict
    ensures IsBestRank(lines, NameOf(key), babyDict[key])
  {
    ObservationParts(lines, sorted[origin[key]]);
    KeyIsNameAndSpace(key);
    forall i | RowNames(lines, i, NameOf(key)) ensures RankLe(babyDict[key], MatchRow(lines[i]).value.rank) {
      RowFolded(lines, sorted, dictKeys, babyDict, origin, i, NameOf(key));
    }
  }

  /** A seen name is listed in some row. */
  lemma SeenNameRow(lines: seq<string>, name: string) returns (i: int)
    requires name in SeenNames(lines)
    ensures RowNames(lines, i, name)
  {
    var firsts := set k | 0 <= k < |lines| && MatchRow(lines[k]).Some? :: MatchRow(lines[k]).value.name1;
    if name in firsts {
      i :| 0 <= i < |lines| && MatchRow(lines[i]).Some? && MatchRow(lines[i]).value.name1 == name;
    } else {
      i :| 0 <= i < |lines| && MatchRow(lines[i]).Some? && MatchRow(lines[i]).value.name2 == name;
    }
  }

  /** The folded dictionary, listed in insertion order, summarizes the page. */
  lemma FoldSummarizes(lines: seq<string>, sorted: seq<string>, dictKeys: seq<string>, babyDict: map<string, string>,
                       origin: map<string, nat>, entries: seq<(string, string)>)
    requires Folded(sorted, |sorted|, dictKeys, babyDict, origin)
    requires forall s :: s in sorted <==> s in Observations(lines)
    requires |entries| == |dictKeys|
    requires forall f :: 0 <= f < |dictKeys| ==> entries[f] == (NameOf(dictKeys[f]), babyDict[dictKeys[f]])
    ensures Summarizes(lines, entries)
    ensures forall f :: 0 <= f < |dictKeys| ==> dictKeys[f] + babyDict[dictKeys[f]] == entries[f].0 + " " + entries[f].1
  {
    forall f | 0 <= f < |dictKeys|
      ensures IsBestRank(lines, entries[f].0, entries[f].1)
      ensures dictKeys[f] + babyDict[dictKeys[f]] == entries[f].0 + " " + entries[f].1
    {
      EntryIsBest(lines, sorted, dictKeys, babyDict, origin, dictKeys[f]);
      KeyIsNameAndSpace(dictKeys[f]);
    }
    forall name | name in SeenNames(lines) ensures exists e :: 0 <= e < |entries| && entries[e].0 == name {
      var i := SeenNameRow(lines, name);
      RowFolded(lines, sorted, dictKeys, babyDict, origin, i, name);
      var e :| 0 <= e < |dictKeys| && dictKeys[e] == name + " ";
      assert entries[e].0 == NameOf(name + " ") == name;
    }
  }

  // ---------------------------------------------------------------------
  // Properties of the result
  // ---------------------------------------------------------------------

  /** The names of a summary are exactly the names seen, so there are as many entries as distinct names. */
  lemma SummaryLength(lines: seq<string>, entries: seq<(string, string)>)
    requires Summarizes(lines, entries)
    ensures |entries| == |SeenNames(lines)|
  {
    var names := set e | 0 <= e < |entries| :: entries[e].0;
    forall name | name in names ensures name in SeenNames(lines) {
      var e :| 0 <= e < |entries| && entries[e].0 == name;
      var i :| RowNames(lines, i, name) && MatchRow(lines[i]).value.rank == entries[e].1;
    }
    assert names == SeenNames(lines);
    DistinctNamesCount(entries);
  }

  /** Entries with pairwise different names have as many names as entries. */
  lemma {:induction false} DistinctNamesCount(entries: seq<(string, string)>)
    requires forall a, b :: 0 <= a < b < |entries| ==> LexLt(entries[a].0, entries[b].0)
    ensures |set e | 0 <= e < |entries| :: entries[e].0| == |entries|
  {
    if entries != [] {
      var front := entries[..|entries| - 1];
      var last := entries[|entries| - 1];
      DistinctNamesCount(front);
      var names := set e | 0 <= e < |entries| :: entries[e].0;
      var frontNames := set e | 0 <= e < |front| :: front[e].0;
      assert names == frontNames + {last.0};
      assert last.0 !in frontNames;
    }
  }

  /** Two strictly ascending sequences with the same elements are equal. */
  lemma {:induction false} AscendingUnique(x: seq<string>, y: seq<string>)
    requires forall a, b :: 0 <= a < b < |x| ==> LexLt(x[a], x[b])
    requires forall a, b :: 0 <= a < b < |y| ==> LexLt(y[a], y[b])
    requires forall s :: s in x <==> s in y
    ensures x == y
  {
    if y != [] {
      assert y[0] in y;
    }
    if x != [] {
      assert x[0] in y;
      assert y[0] in x;
      var k :| 0 <= k < |y| && y[k] == x[0];
      var m :| 0 <= m < |x| && x[m] == y[0];
      if k > 0 {
        if m > 0 {
          LexLeAntisymmetric(x[0], x[m]);
        }
      }
      assert x[0] == y[0];
      forall s ensures s in x[1..] <==> s in y[1..] {
        if s in x[1..] {
          var a :| 0 <= a < |x[1..]| && x[1..][a] == s;
          assert x[a + 1] == s && s != x[0] && s in y;
          var b :| 0 <= b < |y| && y[b] == s;
          assert y[1..][b - 1] == s;
        }
        if s in y[1..] {
          var b :| 0 <= b < |y[1..]| && y[1..][b] == s;
          assert y[b + 1] == s && s != y[0] && s in x;
          var a :| 0 <= a < |x| && x[a] == s;
          assert x[1..][a - 1] == s;
        }
      }
      AscendingUnique(x[1..], y[1..]);
      assert x == [x[0]] + x[1..] && y == [y[0]] + y[1..];
    }
  }

  /** A name has only one best rank. */
  lemma BestRankUnique(lines: seq<string>, name: string, r1: string, r2: string)
    requires IsBestRank(lines, name, r1) && IsBestRank(lines, name, r2)
    ensures r1 == r2
  {
    var i1 :| RowNames(lines, i1, name) && MatchRow(lines[i1]).value.rank == r1;
    var i2 :| RowNames(lines, i2, name) && MatchRow(lines[i2]).value.rank == r2;
    assert RankLe(r1, r2) && RankLe(r2, r1);
    LexLeAntisymmetric(r1, r2);
  }

  /** The names of a summary, in order. */
  function NamesOf(entries: seq<(string, string)>): seq<string> {
    seq(|entries|, e requires 0 <= e < |entries| => entries[e].0)
  }

  /** A summary lists exactly the names seen in some row. */
  lemma SummaryNames(lines: seq<string>, entries: seq<(string, string)>, name: string)
    requires Summarizes(lines, entries)
    ensures name in NamesOf(entries) <==> name in SeenNames(lines)
  {
    var names := NamesOf(entries);
    if name in names {
      var e :| 0 <= e < |names| && names[e] == name;
      var i :| RowNames(lines, i, name) && MatchRow(lines[i]).value.rank == entries[e].1;
    }
    if name in SeenNames(lines) {
      var e :| 0 <= e < |entries| && entries[e].0 == name;
      assert names[e] == name;
    }
  }

  /** The summary of a page is unique: extracting twice from the same lines gives the same list. */
  lemma SummaryUnique(lines: seq<string>, e1: seq<(string, string)>, e2: seq<(string, string)>)
    requires Summarizes(lines, e1) && Summarizes(lines, e2)
    ensures e1 == e2
  {
    var x, y := NamesOf(e1), NamesOf(e2);
    forall s ensures s in x <==> s in y {
      SummaryNames(lines, e1, s);
      SummaryNames(lines, e2, s);
    }
    AscendingUnique(x, y);
    forall a | 0 <= a < |e1| ensures e1[a] == e2[a] {
      assert x[a] == y[a];
      BestRankUnique(lines, e1[a].0, e1[a].1, e2[a].1);
    }
  }

  // ---------------------------------------------------------------------
  // The year
  // ---------------------------------------------------------------------

  /** The year stays `None` exactly when no line matches the year pattern. */
  lemma {:induction false} LastYearNone(lines: seq<string>)
    ensures LastYear(lines).None? <==> forall i :: 0 <= i < |lines| ==> YearOf(lines[i]).None?
    decreases |lines|
  {
    if lines != [] {
      var front := lines[..|lines| - 1];
      LastYearNone(front);
      assert forall i :: 0 <= i < |front| ==> front[i] == lines[i];
    }
  }

  /** The year is the one on the last line that has one. */
  lemma {:induction false} LastYearIsLast(lines: seq<string>, i: int)
    requires 0 <= i < |lines| && YearOf(lines[i]).Some?
    requires forall k :: i < k < |lines| ==> YearOf(lines[k]).None?
    ensures LastYear(lines) == YearOf(lines[i])
    decreases |lines|
  {
    var front := lines[..|lines| - 1];
    if i < |lines| - 1 {
      assert front[i] == lines[i];
      LastYearIsLast(front, i);
    }
  }

  // ---------------------------------------------------------------------
  // Lines that match neither pattern
  // ---------------------------------------------------------------------

  /** Scanning `a + b` is scanning `a`, then `b`. */
  lemma {:induction false} ScanAppend(a: seq<string>, b: seq<string>)
    ensures Observations(a + b) == Observations(a) + Observations(b)
    ensures LastYear(a + b) == if LastYear(b).Some? then LastYear(b) else LastYear(a)
    decreases |b|
  {
    if b == [] {
      assert a + b == a;
    } else {
      var b' := b[..|b| - 1];
      assert (a + b)[..|a + b| - 1] == a + b';
      assert (a + b)[|a + b| - 1] == b[|b| - 1];
      ScanAppend(a, b');
    }
  }

  /** A line that matches neither pattern leaves the year and the observations as they were. */
  lemma ScanIgnoresLine(before: seq<string>, line: string, after: seq<string>)
    requires MatchRow(line).None? && YearOf(line).None?
    ensures Observations(before + [line] + after) == Observations(before + after)
    ensures LastYear(before + [line] + after) == LastYear(before + after)
  {
    ScanOfIgnored(line);
    ScanAppend(before, [line]);
    ScanAppend(before + [line], after);
    ScanAppend(before, after);
    assert Observations(before + [line]) == Observations(before);
  }

  /** Scanning only a line that matches neither pattern finds nothing. */
  lemma ScanOfIgnored(line: string)
    requires MatchRow(line).None? && YearOf(line).None?
    ensures Observations([line]) == [] && LastYear([line]).None?
  {
    assert [line][..0] == [];
    assert LineObservations(line) == [];
  }

  /** A row of `before + after` is a row of the longer list, one place later past the inserted line. */
  lemma RowOfShorter(before: seq<string>, line: string, after: seq<string>, k: int, name: string)
    requires RowNames(before + after, k, name)
    ensures var i := if k < |before| then k else k + 1;
            RowNames(before + [line] + after, i, name) && (before + [line] + after)[i] == (before + after)[k]
  {
    var long, short := before + [line] + after, before + after;
    if k < |before| {
      assert long[k] == before[k] == short[k];
    } else {
      assert long[k + 1] == after[k - |before|] == short[k];
    }
  }

  /** A row of the longer list is not the inserted line, so it is a row of `before + after`. */
  lemma RowOfLonger(before: seq<string>, line: string, after: seq<string>, i: int, name: string)
    requires MatchRow(line).None?
    requires RowNames(before + [line] + after, i, name)
    ensures i != |before|
    ensures var k := if i < |before| then i else i - 1;
            RowNames(before + after, k, name) && (before + after)[k] == (before + [line] + after)[i]
  {
    var long, short := before + [line] + after, before + after;
    if i < |before| {
      assert long[i] == before[i] == short[i];
    } else if i > |before| {
      assert long[i] == after[i - |before| - 1] == short[i - 1];
    }
  }

  /** Inserting a line that is not a row changes no name's best rank. */
  lemma BestRankIgnoresLine(before: seq<string>, line: string, after: seq<string>, name: string, rank: string)
    requires MatchRow(line).None?
    ensures IsBestRank(before + [line] + after, name, rank) <==> IsBestRank(before + after, name, rank)
  {
    var long, short := before + [line] + after, before + after;
    if Observed(long, name, rank) {
      var i :| RowNames(long, i, name) && MatchRow(long[i]).value.rank == rank;
      RowOfLonger(before, line, after, i, name);
    }
    if Observed(short, name, rank) {
      var k :| RowNames(short, k, name) && MatchRow(short[k]).value.rank == rank;
      RowOfShorter(before, line, after, k, name);
    }
    if forall i :: RowNames(long, i, name) ==> RankLe(rank, MatchRow(long[i]).value.rank) {
      forall k | RowNames(short, k, name) ensures RankLe(rank, MatchRow(short[k]).value.rank) {
        RowOfShorter(before, line, after, k, name);
      }
    }
    if forall k :: RowNames(short, k, name) ==> RankLe(rank, MatchRow(short[k]).value.rank) {
      forall i | RowNames(long, i, name) ensures RankLe(rank, MatchRow(long[i]).value.rank) {
        RowOfLonger(before, line, after, i, name);
      }
    }
  }

  /** A name is seen exactly when some row lists it. */
  lemma SeenIsListed(lines: seq<string>, name: string)
    ensures name in SeenNames(lines) <==> exists i :: RowNames(lines, i, name)
  {
    if name in SeenNames(lines) {
      var i := SeenNameRow(lines, name);
    }
  }

  /** Inserting a line that is not a row changes no seen name. */
  lemma SeenIgnoresLine(before: seq<string>, line: string, after: seq<string>)
    requires MatchRow(line).None?
    ensures SeenNames(before + [line] + after) == SeenNames(before + after)
  {
    var long, short := before + [line] + after, before + after;
    forall name ensures name in SeenNames(long) <==> name in SeenNames(short) {
      SeenIsListed(long, name);
      SeenIsListed(short, name);
      if name in SeenNames(long) {
        var i :| RowNames(long, i, name);
        RowOfLonger(before, line, after, i, name);
      }
      if name in SeenNames(short) {
        var k :| RowNames(short, k, name);
        RowOfShorter(before, line, after, k, name);
      }
    }
  }

  /**
   * A line that is not a row changes nothing in the summary; with
   * `SummaryUnique`, the extractor's output does not change either.
   */
  lemma SummaryIgnoresLine(before: seq<string>, line: string, after: seq<string>, entries: seq<(string, string)>)
    requires MatchRow(line).None?
    ensures Summarizes(before + [line] + after, entries) <==> Summarizes(before + after, entries)
  {
    SeenIgnoresLine(before, line, after);
    forall e | 0 <= e < |entries|
      ensures IsBestRank(before + [line] + after, entries[e].0, entries[e].1)
              <==> IsBestRank(before + after, entries[e].0, entries[e].1)
    {
      BestRankIgnoresLine(before, line, after, entries[e].0, entries[e].1);
    }
  }

  /** Without table rows no name is seen, so the result is the year alone. */
  lemma NoRowsNoNames(lines: seq<string>)
    requires forall i :: 0 <= i < |lines| ==> MatchRow(lines[i]).None?
    ensures SeenNames(lines) == {}
  {
    forall name | name in SeenNames(lines) ensures false {
      var i := SeenNameRow(lines, name);
    }
  }

  // ---------------------------------------------------------------------
  // Ranks compare as integers
  // ---------------------------------------------------------------------

  /** The best rank is no larger, as an integer, than any rank observed for the name. */
  lemma BestRankIsMinimum(lines: seq<string>, name: string, rank: string, other: string)
    requires IsBestRank(lines, name, rank) && Observed(lines, name, other)
    ensures DecimalValue(rank) <= DecimalValue(other)
  {
    var i :| RowNames(lines, i, name) && MatchRow(lines[i]).value.rank == other;
  }

  /** `"10"` sorts before `"9"` as a string, yet rank 9 is kept over rank 10. */
  lemma NineBeatsTen()
    ensures LexLt("10", "9")
    ensures RankLe("9", "10") && !RankLe("10", "9")
  {
    assert DecimalValue("9") == 9 by {
      assert "9"[..0] == [];
    }
    assert DecimalValue("10") == 10 by {
      assert "10"[..1] == "1";
      assert "1"[..0] == [];
    }
  }
}
