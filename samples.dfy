/**
 * The extractor on lines from a real page: the year heading and the first
 * two table rows, as in the sample page quoted in the module docstring of
 * `babynames.py` (lines 23-32).
 */
module Samples {
  import opened Text
  import opened Patterns
  import opened BabyNames

  const HEADING_OPEN: string := "<h3 align=\"center\">"
  const HEADING: string := HEADING_OPEN + POPULARITY + "1990" + "</h3>"

  lemma MiddleSlice(a: string, b: string, c: string)
    ensures (a + b + c)[|a|..|a| + |b|] == b
  {
  }

  /** The heading line yields the year `1990`. */
  lemma HeadingYear()
    ensures YearOf(HEADING) == Some("1990")
  {
    var i := |HEADING_OPEN|;
    MiddleSlice(HEADING_OPEN, POPULARITY, "1990" + "</h3>");
    MiddleSlice(HEADING_OPEN + POPULARITY, "1990", "</h3>");
    assert AllIn("1990", Digit);
    assert YearAt(HEADING, i);
    assert 'P' !in HEADING_OPEN;
    forall j: nat | j < i ensures !YearAt(HEADING, j) {
      assert HEADING[j] == HEADING_OPEN[j];
      assert HEADING[j..j + |POPULARITY|][0] == HEADING[j];
    }
    YearOfFirstMatch(HEADING);
  }

  /** `<tr align="right"><td>1</td><td>Michael</td><td>Jessica</td>` */
  const FIRST_ROW: string := RowText(' ', "align", "right", Row("1", "Michael", "Jessica"))
  /** `<tr align="right"><td>2</td><td>Christopher</td><td>Ashley</td>` */
  const SECOND_ROW: string := RowText(' ', "align", "right", Row("2", "Christopher", "Ashley"))

  /** A table row whose attribute is `align="right"` is accepted with its own columns. */
  lemma AlignedRow(row: Row)
    requires WellFormedRow(row)
    ensures MatchRow(RowText(' ', "align", "right", row)) == Some(row)
  {
    var line := RowText(' ', "align", "right", row);
    assert IsToken("align", Word) && IsToken("right", Word);
    assert Space.Has(' ');
    assert RowText(' ', "align", "right", row) <= line;
    MatchRowComplete(line, row);
  }

  /** The observations of a line the row pattern accepts. */
  lemma RowObservations(line: string, row: Row)
    requires MatchRow(line) == Some(row)
    ensures LineObservations(line) == [row.name1 + " " + row.rank, row.name2 + " " + row.rank]
  {
  }

  /** The first row contributes `Michael 1` and `Jessica 1`, in that order. */
  lemma FirstRowObservations()
    ensures LineObservations(FIRST_ROW) == ["Michael 1", "Jessica 1"]
  {
    assert "Michael" + " " + "1" == "Michael 1";
    assert "Jessica" + " " + "1" == "Jessica 1";
    var row := Row("1", "Michael", "Jessica");
    assert WellFormedRow(row);
    AlignedRow(row);
    RowObservations(FIRST_ROW, row);
  }

  /** The second row contributes `Christopher 2` and `Ashley 2`, in that order. */
  lemma SecondRowObservations()
    ensures LineObservations(SECOND_ROW) == ["Christopher 2", "Ashley 2"]
  {
    assert "Christopher" + " " + "2" == "Christopher 2";
    assert "Ashley" + " " + "2" == "Ashley 2";
    var row := Row("2", "Christopher", "Ashley");
    assert WellFormedRow(row);
    AlignedRow(row);
    RowObservations(SECOND_ROW, row);
  }

  /** A line without the letter `P` holds no year. */
  lemma NoYearWithoutP(line: string)
    requires 'P' !in line
    ensures YearOf(line).None?
  {
    forall i: nat | i + |POPULARITY| + 4 <= |line| ensures !YearAt(line, i) {
      assert line[i..i + |POPULARITY|][0] == line[i];
    }
    YearOfFirstMatch(line);
  }

  /** A line that does not begin with `<tr` is not a table row. */
  lemma NoRowWithoutTr(line: string)
    requires |line| < |TR_OPEN| || line[..|TR_OPEN|] != TR_OPEN
    ensures MatchRow(line).None?
  {
  }

  /** The heading is not a table row. */
  lemma HeadingIsNotARow()
    ensures MatchRow(HEADING).None?
  {
    assert HEADING[..|TR_OPEN|][1] == 'h';
    NoRowWithoutTr(HEADING);
  }

  /** A row whose columns hold no `P`, with `align="right"`, holds no year. */
  lemma AlignedRowHasNoYear(row: Row)
    requires 'P' !in row.rank && 'P' !in row.name1 && 'P' !in row.name2
    ensures YearOf(RowText(' ', "align", "right", row)).None?
  {
    assert 'P' !in TR_OPEN + [' '] + "align" + ATTR_EQ + "right" + ATTR_CLOSE;
    assert 'P' !in NEXT_CELL && 'P' !in CELL_CLOSE;
    NoYearWithoutP(RowText(' ', "align", "right", row));
  }

  /** Neither table row holds a year. */
  lemma PageRowsHaveNoYear()
    ensures YearOf(FIRST_ROW).None? && YearOf(SECOND_ROW).None?
  {
    assert 'P' !in "Michael" && 'P' !in "Jessica" && 'P' !in "Christopher" && 'P' !in "Ashley";
    AlignedRowHasNoYear(Row("1", "Michael", "Jessica"));
    AlignedRowHasNoYear(Row("2", "Christopher", "Ashley"));
  }

  /** A heading with a year, then two lines without one: the heading's year is kept. */
  lemma HeadingYearKept(heading: string, row1: string, row2: string)
    requires YearOf(heading).Some? && YearOf(row1).None? && YearOf(row2).None?
    ensures LastYear([heading, row1, row2]) == YearOf(heading)
  {
    assert [heading][..0] == [];
    assert LastYear([heading]) == YearOf(heading);
    assert [heading, row1][..1] == [heading];
    assert LastYear([heading, row1]) == YearOf(heading);
    assert [heading, row1, row2][..2] == [heading, row1];
  }

  /** A line that is not a table row, then two more lines: only the two lines contribute. */
  lemma RowsAfterHeading(heading: string, row1: string, row2: string)
    requires MatchRow(heading).None?
    ensures Observations([heading, row1, row2]) == LineObservations(row1) + LineObservations(row2)
  {
    assert [heading][..0] == [];
    assert Observations([heading]) == [];
    assert [heading, row1][..1] == [heading];
    assert Observations([heading, row1]) == LineObservations(row1);
    assert [heading, row1, row2][..2] == [heading, row1];
  }

  /** The year of the three-line page is `1990`, the year of its heading. */
  lemma PageYear()
    ensures LastYear([HEADING, FIRST_ROW, SECOND_ROW]) == Some("1990")
  {
    HeadingYear();
    PageRowsHaveNoYear();
    HeadingYearKept(HEADING, FIRST_ROW, SECOND_ROW);
  }

  /** The two rows of the page give four observations, in page order. */
  lemma PageObservations()
    ensures Observations([HEADING, FIRST_ROW, SECOND_ROW])
         == ["Michael 1", "Jessica 1", "Christopher 2", "Ashley 2"]
  {
    HeadingIsNotARow();
    RowsAfterHeading(HEADING, FIRST_ROW, SECOND_ROW);
    FirstRowObservations();
    SecondRowObservations();
  }

  // ---------------------------------------------------------------------
  // The whole page
  // ---------------------------------------------------------------------

  const PAGE: seq<string> := [HEADING, FIRST_ROW, SECOND_ROW]

  /** The names of the page with their best ranks, in ascending order of name. */
  const PAGE_SUMMARY: seq<(string, string)> := [("Ashley", "2"), ("Christopher", "2"), ("Jessica", "1"), ("Michael", "1")]

  /** Three lines whose last two are the rows of the page. */
  ghost predicate PageRows(lines: seq<string>) {
    && |lines| == 3 && MatchRow(lines[0]).None?
    && MatchRow(lines[1]) == Some(Row("1", "Michael", "Jessica"))
    && MatchRow(lines[2]) == Some(Row("2", "Christopher", "Ashley"))
  }

  // The case analysis of `PageRowNames` is split into the three lemmas below:
  // with `MatchRow` unfolded on every line of the page, a single proof of all
  // three facts exceeds the solver's resource budget.

  /** Only the two rows of the page list names. */
  lemma PageRowIndex(lines: seq<string>, k: int, name: string)
    requires PageRows(lines) && RowNames(lines, k, name)
    ensures k == 1 || k == 2
  {
    assert 0 <= k < 3;
    assert k != 0;
  }

  /** The first row lists Michael and Jessica. */
  lemma FirstRowNames(lines: seq<string>, name: string)
    requires PageRows(lines) && RowNames(lines, 1, name)
    ensures name == "Michael" || name == "Jessica"
  {
  }

  /** The second row lists Christopher and Ashley. */
  lemma SecondRowNames(lines: seq<string>, name: string)
    requires PageRows(lines) && RowNames(lines, 2, name)
    ensures name == "Christopher" || name == "Ashley"
  {
  }

  /** The rows that list each name: the first row lists Michael and Jessica, the second Christopher and Ashley. */
  lemma PageRowNames(lines: seq<string>, k: int, name: string)
    requires PageRows(lines) && RowNames(lines, k, name)
    ensures k == 1 ==> name == "Michael" || name == "Jessica"
    ensures k == 2 ==> name == "Christopher" || name == "Ashley"
    ensures k == 1 || k == 2
  {
    PageRowIndex(lines, k, name);
    if k == 1 {
      FirstRowNames(lines, name);
    } else {
      SecondRowNames(lines, name);
    }
  }

  /** A string whose first character is below the other's first character sorts strictly first. */
  lemma FirstCharBelow(a: string, b: string)
    requires a != [] && b != [] && a[0] < b[0]
    ensures LexLt(a, b)
  {
  }

  /** The names of the summary ascend. */
  lemma PageNamesAscend()
    ensures forall a, b :: 0 <= a < b < |PAGE_SUMMARY| ==> LexLt(PAGE_SUMMARY[a].0, PAGE_SUMMARY[b].0)
  {
    FirstCharBelow("Ashley", "Christopher");
    FirstCharBelow("Ashley", "Jessica");
    FirstCharBelow("Ashley", "Michael");
    FirstCharBelow("Christopher", "Jessica");
    FirstCharBelow("Christopher", "Michael");
    FirstCharBelow("Jessica", "Michael");
  }

  /** Each pair of the summary holds its name's best rank. */
  lemma PageBestRanks(lines: seq<string>)
    requires PageRows(lines)
    ensures forall e :: 0 <= e < |PAGE_SUMMARY| ==> IsBestRank(lines, PAGE_SUMMARY[e].0, PAGE_SUMMARY[e].1)
  {
    LexLeReflexive("1");
    LexLeReflexive("2");
    forall e | 0 <= e < |PAGE_SUMMARY| ensures IsBestRank(lines, PAGE_SUMMARY[e].0, PAGE_SUMMARY[e].1) {
      var name := PAGE_SUMMARY[e].0;
      var i := if e < 2 then 2 else 1;
      assert RowNames(lines, i, name);
      forall k | RowNames(lines, k, name) ensures k == i {
        PageRowNames(lines, k, name);
      }
    }
  }

  /** Every name seen on the page has a pair in the summary. */
  lemma PageNamesCovered(lines: seq<string>)
    requires PageRows(lines)
    ensures forall name :: name in SeenNames(lines) ==> exists e :: 0 <= e < |PAGE_SUMMARY| && PAGE_SUMMARY[e].0 == name
  {
    forall name | name in SeenNames(lines) ensures exists e :: 0 <= e < |PAGE_SUMMARY| && PAGE_SUMMARY[e].0 == name {
      var i := SeenNameRow(lines, name);
      PageRowNames(lines, i, name);
      if name == "Michael" {
        assert PAGE_SUMMARY[3].0 == name;
      } else if name == "Jessica" {
        assert PAGE_SUMMARY[2].0 == name;
      } else if name == "Christopher" {
        assert PAGE_SUMMARY[1].0 == name;
      } else {
        assert PAGE_SUMMARY[0].0 == name;
      }
    }
  }

  /** Any three lines whose last two are the rows of the page are summarized by the four pairs. */
  lemma TwoRowsSummary(lines: seq<string>)
    requires PageRows(lines)
    ensures Summarizes(lines, PAGE_SUMMARY)
  {
    PageBestRanks(lines);
    PageNamesAscend();
    PageNamesCovered(lines);
  }

  /** The rows of the page are the heading, then the two table rows. */
  lemma PageHasRows()
    ensures PageRows(PAGE)
  {
    HeadingIsNotARow();
    FirstRowMatches();
    SecondRowMatches();
    assert PAGE[0] == HEADING && PAGE[1] == FIRST_ROW && PAGE[2] == SECOND_ROW;
  }

  lemma FirstRowMatches()
    ensures MatchRow(FIRST_ROW) == Some(Row("1", "Michael", "Jessica"))
  {
    assert WellFormedRow(Row("1", "Michael", "Jessica"));
    AlignedRow(Row("1", "Michael", "Jessica"));
  }

  lemma SecondRowMatches()
    ensures MatchRow(SECOND_ROW) == Some(Row("2", "Christopher", "Ashley"))
  {
    assert WellFormedRow(Row("2", "Christopher", "Ashley"));
    AlignedRow(Row("2", "Christopher", "Ashley"));
  }

  /** Any summary of three lines with the rows of the page is exactly the four pairs. */
  lemma TwoRowsSummaryUnique(lines: seq<string>, entries: seq<(string, string)>)
    requires PageRows(lines) && Summarizes(lines, entries)
    ensures entries == PAGE_SUMMARY
  {
    TwoRowsSummary(lines);
    SummaryUnique(lines, entries, PAGE_SUMMARY);
  }

  /** The year `1990` and the four pairs of the summary, written as the extractor writes them. */
  lemma PageResult(result: seq<Option<string>>, entries: seq<(string, string)>)
    requires entries == PAGE_SUMMARY
    requires |result| == |entries| + 1 && result[0] == Some("1990")
    requires forall e :: 1 <= e < |result| ==> result[e] == Some(entries[e - 1].0 + " " + entries[e - 1].1)
    ensures result == [Some("1990"), Some("Ashley 2"), Some("Christopher 2"), Some("Jessica 1"), Some("Michael 1")]
  {
    assert "Ashley" + " " + "2" == "Ashley 2";
    assert "Christopher" + " " + "2" == "Christopher 2";
    assert "Jessica" + " " + "1" == "Jessica 1";
    assert "Michael" + " " + "1" == "Michael 1";
    assert result[1] == Some("Ashley 2") && result[2] == Some("Christopher 2");
    assert result[3] == Some("Jessica 1") && result[4] == Some("Michael 1");
  }

  /** `extract_names` on the page: the year, then each name, a space and its best rank, by name. */
  method ExtractPage() returns (result: seq<Option<string>>)
    ensures result == [Some("1990"), Some("Ashley 2"), Some("Christopher 2"), Some("Jessica 1"), Some("Michael 1")]
  {
    ghost var entries;
    result, entries := ExtractNames(PAGE);
    PageYear();
    PageHasRows();
    TwoRowsSummaryUnique(PAGE, entries);
    PageResult(result, entries);
  }
}
