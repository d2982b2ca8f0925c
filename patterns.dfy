/**
 * Hand-written matchers for the three regular expressions of
 * `extract_names`:
 *   the year pattern      `(Popularity in \d{4})`, searched anywhere in a line;
 *   the table-row pattern `<(tr\s\w+="\w+"><td>)(\d+)(</td><td>)(\w+)(</td><td>)(\w+)(</td>)`,
 *                         matched at the start of a line;
 *   the rank pattern      `(\w+\s)(\d+)`, matched at the start of an observation string.
 * Each `+` after a character class is followed by a character outside that
 * class, so the greedy longest run is the only run that can lead to a match
 * and no backtracking is needed. Each matcher is proved equal to a
 * declarative description of the text it accepts.
 */
module Patterns {
  import opened Text

  // ---------------------------------------------------------------------
  // Building blocks
  // ---------------------------------------------------------------------

  /** The end of the longest run of `cls` characters of `s` that starts at `i`. */
  function RunEnd(s: string, i: nat, cls: CharClass): (j: nat)
    requires i <= |s|
    ensures i <= j <= |s|
    ensures AllIn(s[i..j], cls)
    ensures j == |s| || !cls.Has(s[j])
    decreases |s| - i
  {
    if i < |s| && cls.Has(s[i]) then RunEnd(s, i + 1, cls) else i
  }

  /** A run of `cls` characters that stops before a character outside `cls` is the longest run. */
  lemma {:induction false} RunEndUnique(s: string, i: nat, j: nat, cls: CharClass)
    requires i <= j <= |s|
    requires AllIn(s[i..j], cls)
    requires j == |s| || !cls.Has(s[j])
    ensures RunEnd(s, i, cls) == j
    decreases j - i
  {
    if i < j {
      assert s[i..j][0] == s[i];
      assert s[i + 1..j] == s[i..j][1..];
      RunEndUnique(s, i + 1, j, cls);
    }
  }

  /** `cls+` at position `i`: the end of the match, if there is one. */
  function Run(s: string, i: nat, cls: CharClass): Option<nat> {
    if i <= |s| then
      var j := RunEnd(s, i, cls);
      if i < j then Some(j) else None
    else
      None
  }

  /** A single `cls` character at position `i`. */
  function One(s: string, i: nat, cls: CharClass): Option<nat> {
    if i < |s| && cls.Has(s[i]) then Some(i + 1) else None
  }

  /** The literal text `lit` at position `i`. */
  function Lit(s: string, i: nat, lit: string): Option<nat> {
    if i + |lit| <= |s| && s[i..i + |lit|] == lit then Some(i + |lit|) else None
  }

  /** A nonempty run of `cls` characters. */
  predicate IsToken(s: string, cls: CharClass) {
    |s| > 0 && AllIn(s, cls)
  }

  /** If `a + b` stands at `i` in `s`, then `a` stands at `i` and `b` right after it. */
  lemma PieceSplit(s: string, i: nat, a: string, b: string)
    requires i + |a + b| <= |s| && s[i..i + |a + b|] == a + b
    ensures s[i..i + |a|] == a && s[i + |a|..i + |a| + |b|] == b
  {
    assert s[i..i + |a|] == (a + b)[..|a|];
    assert s[i + |a|..i + |a| + |b|] == (a + b)[|a|..];
  }

  /** If `a` stands at `i` in `s` and `b` right after it, then `a + b` stands at `i`. */
  lemma PieceJoin(s: string, i: nat, a: string, b: string)
    requires i + |a| + |b| <= |s|
    requires s[i..i + |a|] == a && s[i + |a|..i + |a| + |b|] == b
    ensures s[i..i + |a + b|] == a + b
  {
    assert s[i..i + |a + b|] == s[i..i + |a|] + s[i + |a|..i + |a| + |b|];
  }

  /** `PieceSplit` at the start of `s`. */
  lemma PrefixSplit(s: string, a: string, b: string)
    requires |a + b| <= |s| && s[..|a + b|] == a + b
    ensures s[..|a|] == a && s[|a|..|a| + |b|] == b
  {
    assert s[..|a|] == (a + b)[..|a|];
    assert s[|a|..|a| + |b|] == (a + b)[|a|..];
  }

  /** `PieceJoin` at the start of `s`. */
  lemma PrefixJoin(s: string, a: string, b: string)
    requires |a| + |b| <= |s|
    requires s[..|a|] == a && s[|a|..|a| + |b|] == b
    ensures s[..|a + b|] == a + b
  {
    assert s[..|a + b|] == s[..|a|] + s[|a|..|a| + |b|];
  }

  // ---------------------------------------------------------------------
  // The table-row pattern
  // ---------------------------------------------------------------------

  /** The three captured columns of a matching table row: groups 2, 4 and 6. */
  datatype Row = Row(rank: string, name1: string, name2: string)

  predicate WellFormedRow(row: Row) {
    IsToken(row.rank, Digit) && IsToken(row.name1, Word) && IsToken(row.name2, Word)
  }

  /** The literals that separate the captured pieces of a table row. */
  const TR_OPEN: string := "<tr"
  const ATTR_EQ: string := "=\""
  const ATTR_CLOSE: string := "\"><td>"
  const NEXT_CELL: string := "</td><td>"
  const CELL_CLOSE: string := "</td>"

  /**
   * The opening tag of a row, `<tr`, the whitespace character `ws`, the
   * attribute `attr="val"`, and the opening `<td>` of the rank column.
   */
  function StartText(ws: char, attr: string, val: string): string {
    TR_OPEN + [ws] + attr + ATTR_EQ + val + ATTR_CLOSE
  }

  /** The three columns of a row, from the rank up to the `</td>` closing the second name. */
  function CellsText(row: Row): string {
    row.rank + NEXT_CELL + row.name1 + NEXT_CELL + row.name2 + CELL_CLOSE
  }

  /** The whole text the row pattern consumes. */
  function RowText(ws: char, attr: string, val: string, row: Row): string {
    StartText(ws, attr, val) + CellsText(row)
  }

  /** `line` begins with a table row whose columns are `row`; anything may follow. */
  ghost predicate RowShape(line: string, row: Row) {
    exists ws: char, attr: string, val: string ::
      Space.Has(ws) && IsToken(attr, Word) && IsToken(val, Word) && WellFormedRow(row)
      && RowText(ws, attr, val, row) <= line
  }

  /**
   * `cls+` at `i` followed by the literal `close`: the end of the token.
   * `close` starts with a character outside `cls`, so the token is the
   * longest run.
   */
  function Field(s: string, i: nat, cls: CharClass, close: string): (r: Option<nat>)
    ensures r.Some? ==> i < r.value && r.value + |close| <= |s|
  {
    if i <= |s| then
      var j := RunEnd(s, i, cls);
      if i < j && j + |close| <= |s| && s[j..j + |close|] == close then Some(j) else None
    else
      None
  }

  /** What `Field` finds is a token of `cls` followed by `close`. */
  lemma FieldSound(s: string, i: nat, cls: CharClass, close: string)
    requires Field(s, i, cls, close).Some?
    ensures var j := Field(s, i, cls, close).value;
            IsToken(s[i..j], cls) && s[j..j + |close|] == close
  {
  }

  /** A token of `cls` followed by `close`, standing at `i`, is what `Field` finds there. */
  lemma FieldComplete(s: string, i: nat, cls: CharClass, token: string, close: string)
    requires IsToken(token, cls) && close != [] && !cls.Has(close[0])
    requires i + |token| + |close| <= |s|
    requires s[i..i + |token|] == token && s[i + |token|..i + |token| + |close|] == close
    ensures Field(s, i, cls, close) == Some(i + |token|)
  {
    assert s[i + |token|] == close[0];
    RunEndUnique(s, i, i + |token|, cls);
  }

  /** `re.match(name_rank_regex, line)`, giving groups 2, 4 and 6 on success. */
  function MatchRow(line: string): Option<Row> {
    var rankStart :- RowStart(line);
    RowCells(line, rankStart)
  }

  /** Groups 1 and the `<` before them: where the rank column begins. */
  function RowStart(line: string): Option<nat> {
    var afterTr :- Lit(line, 0, TR_OPEN);
    var attrStart :- One(line, afterTr, Space);
    var attrEnd :- Field(line, attrStart, Word, ATTR_EQ);
    var valEnd :- Field(line, attrEnd + |ATTR_EQ|, Word, ATTR_CLOSE);
    Some(valEnd + |ATTR_CLOSE|)
  }

  /** Groups 2 to 7, starting at `rankStart`. */
  function RowCells(line: string, rankStart: nat): Option<Row> {
    match Field(line, rankStart, Digit, NEXT_CELL)
    case None => None
    case Some(rankEnd) =>
      match Field(line, rankEnd + |NEXT_CELL|, Word, NEXT_CELL)
      case None => None
      case Some(name1End) =>
        match Field(line, name1End + |NEXT_CELL|, Word, CELL_CLOSE)
        case None => None
        case Some(name2End) =>
          Some(Row(line[rankStart..rankEnd], line[rankEnd + |NEXT_CELL|..name1End], line[name1End + |NEXT_CELL|..name2End]))
  }

  /** The rank column is digits and both name columns are word characters. */
  lemma RowCellsWellFormed(line: string, rankStart: nat)
    requires RowCells(line, rankStart).Some?
    ensures WellFormedRow(RowCells(line, rankStart).value)
  {
    var rankEnd := Field(line, rankStart, Digit, NEXT_CELL).value;
    var name1End := Field(line, rankEnd + |NEXT_CELL|, Word, NEXT_CELL).value;
    FieldSound(line, rankStart, Digit, NEXT_CELL);
    FieldSound(line, rankEnd + |NEXT_CELL|, Word, NEXT_CELL);
    FieldSound(line, name1End + |NEXT_CELL|, Word, CELL_CLOSE);
  }

  /** Every row the matcher accepts has a digit rank and two word names. */
  lemma MatchRowWellFormed(line: string)
    requires MatchRow(line).Some?
    ensures WellFormedRow(MatchRow(line).value)
  {
    RowCellsWellFormed(line, RowStart(line).value);
  }

  lemma RowStartSound(line: string) returns (ws: char, attr: string, val: string)
    requires RowStart(line).Some?
    ensures Space.Has(ws) && IsToken(attr, Word) && IsToken(val, Word)
    ensures |StartText(ws, attr, val)| == RowStart(line).value <= |line|
    ensures line[..RowStart(line).value] == StartText(ws, attr, val)
  {
    var attrEnd := Field(line, 4, Word, ATTR_EQ).value;
    var valStart := attrEnd + |ATTR_EQ|;
    var valEnd := Field(line, valStart, Word, ATTR_CLOSE).value;
    FieldSound(line, 4, Word, ATTR_EQ);
    FieldSound(line, valStart, Word, ATTR_CLOSE);
    ws, attr, val := line[3], line[4..attrEnd], line[valStart..valEnd];
    assert line[..|TR_OPEN|] == TR_OPEN;
    assert line[3..4] == [ws];
    PrefixJoin(line, TR_OPEN, [ws]);
    PrefixJoin(line, TR_OPEN + [ws], attr);
    PrefixJoin(line, TR_OPEN + [ws] + attr, ATTR_EQ);
    PrefixJoin(line, TR_OPEN + [ws] + attr + ATTR_EQ, val);
    PrefixJoin(line, TR_OPEN + [ws] + attr + ATTR_EQ + val, ATTR_CLOSE);
  }

  lemma RowCellsSound(line: string, rankStart: nat)
    requires RowCells(line, rankStart).Some?
    ensures rankStart + |CellsText(RowCells(line, rankStart).value)| <= |line|
    ensures line[rankStart..rankStart + |CellsText(RowCells(line, rankStart).value)|]
            == CellsText(RowCells(line, rankStart).value)
  {
    var row := RowCells(line, rankStart).value;
    var rankEnd := Field(line, rankStart, Digit, NEXT_CELL).value;
    var name1Start := rankEnd + |NEXT_CELL|;
    var name1End := Field(line, name1Start, Word, NEXT_CELL).value;
    var name2Start := name1End + |NEXT_CELL|;
    var name2End := Field(line, name2Start, Word, CELL_CLOSE).value;
    FieldSound(line, rankStart, Digit, NEXT_CELL);
    FieldSound(line, name1Start, Word, NEXT_CELL);
    FieldSound(line, name2Start, Word, CELL_CLOSE);
    assert row == Row(line[rankStart..rankEnd], line[name1Start..name1End], line[name2Start..name2End]);
    PieceJoin(line, rankStart, row.rank, NEXT_CELL);
    PieceJoin(line, rankStart, row.rank + NEXT_CELL, row.name1);
    PieceJoin(line, rankStart, row.rank + NEXT_CELL + row.name1, NEXT_CELL);
    PieceJoin(line, rankStart, row.rank + NEXT_CELL + row.name1 + NEXT_CELL, row.name2);
    PieceJoin(line, rankStart, row.rank + NEXT_CELL + row.name1 + NEXT_CELL + row.name2, CELL_CLOSE);
  }

  /** Whatever the row matcher accepts has the row shape, with the columns it returns. */
  lemma MatchRowSound(line: string)
    requires MatchRow(line).Some?
    ensures RowShape(line, MatchRow(line).value)
  {
    var rankStart := RowStart(line).value;
    var row := RowCells(line, rankStart).value;
    assert MatchRow(line).value == row;
    var ws, attr, val := RowStartSound(line);
    RowCellsSound(line, rankStart);
    RowCellsWellFormed(line, rankStart);
    var start, cells := StartText(ws, attr, val), CellsText(row);
    assert |start| == rankStart;
    assert line[..|start|] == start;
    assert line[|start|..|start| + |cells|] == cells;
    PrefixJoin(line, start, cells);
    assert RowText(ws, attr, val, row) == line[..|RowText(ws, attr, val, row)|];
  }

  lemma RowStartComplete(line: string, ws: char, attr: string, val: string)
    requires Space.Has(ws) && IsToken(attr, Word) && IsToken(val, Word)
    requires |StartText(ws, attr, val)| <= |line|
    requires line[..|StartText(ws, attr, val)|] == StartText(ws, attr, val)
    ensures RowStart(line) == Some(|StartText(ws, attr, val)|)
  {
    var q1 := TR_OPEN + [ws];
    var q2 := q1 + attr;
    var q3 := q2 + ATTR_EQ;
    var q4 := q3 + val;
    PrefixSplit(line, q4, ATTR_CLOSE);
    PrefixSplit(line, q3, val);
    PrefixSplit(line, q2, ATTR_EQ);
    PrefixSplit(line, q1, attr);
    PrefixSplit(line, TR_OPEN, [ws]);
    assert Lit(line, 0, TR_OPEN) == Some(3);
    assert One(line, 3, Space) == Some(4);
    FieldComplete(line, 4, Word, attr, ATTR_EQ);
    FieldComplete(line, |q3|, Word, val, ATTR_CLOSE);
  }

  /** The six pieces of `CellsText(row)`, each at its own offset. */
  lemma CellsPieces(line: string, rankStart: nat, row: Row)
    requires rankStart + |CellsText(row)| <= |line|
    requires line[rankStart..rankStart + |CellsText(row)|] == CellsText(row)
    ensures var rankEnd := rankStart + |row.rank|;
            var name1Start := rankEnd + |NEXT_CELL|;
            var name1End := name1Start + |row.name1|;
            var name2Start := name1End + |NEXT_CELL|;
            var name2End := name2Start + |row.name2|;
            && name2End + |CELL_CLOSE| <= |line|
            && line[rankStart..rankEnd] == row.rank
            && line[rankEnd..name1Start] == NEXT_CELL
            && line[name1Start..name1End] == row.name1
            && line[name1End..name2Start] == NEXT_CELL
            && line[name2Start..name2End] == row.name2
            && line[name2End..name2End + |CELL_CLOSE|] == CELL_CLOSE
  {
    var q1 := row.rank + NEXT_CELL;
    var q2 := q1 + row.name1;
    var q3 := q2 + NEXT_CELL;
    var q4 := q3 + row.name2;
    PieceSplit(line, rankStart, q4, CELL_CLOSE);
    PieceSplit(line, rankStart, q3, row.name2);
    PieceSplit(line, rankStart, q2, NEXT_CELL);
    PieceSplit(line, rankStart, q1, row.name1);
    PieceSplit(line, rankStart, row.rank, NEXT_CELL);
  }

  /** `RowCells` evaluated once its three fields are known. */
  lemma RowCellsOfFields(line: string, rankStart: nat, rankEnd: nat, name1End: nat, name2End: nat)
    requires Field(line, rankStart, Digit, NEXT_CELL) == Some(rankEnd)
    requires Field(line, rankEnd + |NEXT_CELL|, Word, NEXT_CELL) == Some(name1End)
    requires Field(line, name1End + |NEXT_CELL|, Word, CELL_CLOSE) == Some(name2End)
    ensures RowCells(line, rankStart)
      == Some(Row(line[rankStart..rankEnd], line[rankEnd + |NEXT_CELL|..name1End], line[name1End + |NEXT_CELL|..name2End]))
  {
  }

  lemma RowCellsComplete(line: string, rankStart: nat, row: Row)
    requires WellFormedRow(row)
    requires rankStart + |CellsText(row)| <= |line|
    requires line[rankStart..rankStart + |CellsText(row)|] == CellsText(row)
    ensures RowCells(line, rankStart) == Some(row)
  {
    CellsPieces(line, rankStart, row);
    var rankEnd := rankStart + |row.rank|;
    var name1Start := rankEnd + |NEXT_CELL|;
    var name1End := name1Start + |row.name1|;
    var name2Start := name1End + |NEXT_CELL|;
    var name2End := name2Start + |row.name2|;
    FieldComplete(line, rankStart, Digit, row.rank, NEXT_CELL);
    FieldComplete(line, name1Start, Word, row.name1, NEXT_CELL);
    FieldComplete(line, name2Start, Word, row.name2, CELL_CLOSE);
    RowCellsOfFields(line, rankStart, rankEnd, name1End, name2End);
  }

  /** Every line with the row shape is accepted, with exactly its columns. */
  lemma MatchRowComplete(line: string, row: Row)
    requires RowShape(line, row)
    ensures MatchRow(line) == Some(row)
  {
    var ws: char, attr: string, val: string :|
      Space.Has(ws) && IsToken(attr, Word) && IsToken(val, Word) && WellFormedRow(row)
      && RowText(ws, attr, val, row) <= line;
    var start := StartText(ws, attr, val);
    assert line[..|start + CellsText(row)|] == start + CellsText(row);
    PrefixSplit(line, start, CellsText(row));
    RowStartComplete(line, ws, attr, val);
    RowCellsComplete(line, |start|, row);
  }

  // ---------------------------------------------------------------------
  // The year pattern
  // ---------------------------------------------------------------------

  const POPULARITY: string := "Popularity in "

  /** `Popularity in ` followed by four digits starts at position `i` of `line`. */
  predicate YearAt(line: string, i: nat) {
    i + |POPULARITY| + 4 <= |line|
    && line[i..i + |POPULARITY|] == POPULARITY
    && AllIn(line[i + |POPULARITY|..i + |POPULARITY| + 4], Digit)
  }

  /** The leftmost position at or after `from` where the year pattern matches. */
  function FindYearFrom(line: string, from: nat): (r: Option<nat>)
    ensures r.Some? ==> from <= r.value && YearAt(line, r.value)
    ensures r.Some? ==> forall j :: from <= j < r.value ==> !YearAt(line, j)
    ensures r.None? ==> forall j: nat :: from <= j ==> !YearAt(line, j)
    decreases |line| - from
  {
    if from + |POPULARITY| + 4 > |line| then None
    else if YearAt(line, from) then Some(from)
    else FindYearFrom(line, from + 1)
  }

  /**
   * The year a line contributes: `re.findall` lists the matches from left
   * to right, and `year_match[0][-4:]` keeps the last four characters of
   * the first one.
   */
  function YearOf(line: string): (y: Option<string>)
    ensures y.Some? ==> |y.value| == 4 && AllIn(y.value, Digit)
  {
    match FindYearFrom(line, 0)
    case None => None
    case Some(i) =>
      var m := line[i..i + |POPULARITY| + 4];
      assert m[|m| - 4..] == line[i + |POPULARITY|..i + |POPULARITY| + 4];
      Some(m[|m| - 4..])
  }

  /** A line yields a year exactly when the pattern occurs in it, and the year is the digits of the leftmost occurrence. */
  lemma YearOfFirstMatch(line: string)
    ensures YearOf(line).None? <==> forall i: nat :: !YearAt(line, i)
    ensures YearOf(line).Some? ==>
              exists i: nat :: YearAt(line, i) && YearOf(line).value == line[i + |POPULARITY|..i + |POPULARITY| + 4]
                               && forall j :: 0 <= j < i ==> !YearAt(line, j)
  {
  }

  // ---------------------------------------------------------------------
  // The rank pattern
  // ---------------------------------------------------------------------

  /** `re.match(rank_regex, s)`, giving group 1 (the name with its separator) and group 2 (the rank). */
  function SplitRank(s: string): Option<(string, string)> {
    var p1 :- Run(s, 0, Word);
    var p2 :- One(s, p1, Space);
    var p3 :- Run(s, p2, Digit);
    Some((s[..p2], s[p2..p3]))
  }

  /** Splitting `name + ' ' + rank` gives back `name + ' '` and `rank`. */
  lemma SplitRankOfObservation(name: string, rank: string)
    requires IsToken(name, Word) && IsToken(rank, Digit)
    ensures SplitRank(name + " " + rank) == Some((name + " ", rank))
  {
    var s := name + " " + rank;
    assert s[0..|name|] == name;
    assert s[|name|] == ' ';
    assert s[|name| + 1..|s|] == rank;
    WordCharsAboveSpace(name[0]);
    RunEndUnique(s, 0, |name|, Word);
    RunEndUnique(s, |name| + 1, |s|, Digit);
    assert s[..|name| + 1] == name + " ";
  }
}
