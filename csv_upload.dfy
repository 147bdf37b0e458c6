/**
 * The CSV-to-cells step of the upload handler: the file text is split into
 * lines on '\n', lines that are blank once trimmed are dropped, and every
 * remaining line is split on ',' with each cell trimmed.
 */
module CsvUpload {
  import opened Text

  /** `line.trim()` is truthy. */
  predicate IsBlank(line: string)
  {
    Trim(line) == []
  }

  /** `lines.filter(row => row.trim())`. */
  function NonBlankLines(lines: seq<string>): (r: seq<string>)
    ensures |r| <= |lines|
    ensures forall i :: 0 <= i < |r| ==> !IsBlank(r[i]) && r[i] in lines
  {
    if lines == [] then []
    else
      var rest := NonBlankLines(lines[1..]);
      assert forall x :: x in lines[1..] ==> x in lines;
      if IsBlank(lines[0]) then rest else [lines[0]] + rest
  }

  /** `row.split(',').map(cell => cell.trim())`. */
  function Cells(line: string): (r: seq<string>)
    ensures |r| == Occurrences(line, ',') + 1
    ensures forall i :: 0 <= i < |r| ==> IsTrimmed(r[i])
  {
    var pieces := Split(line, ',');
    seq(|pieces|, i requires 0 <= i < |pieces| => Trim(pieces[i]))
  }

  /** The whole transformation from the file's text to rows of cells. */
  function ParseCsv(text: string): (rows: seq<seq<string>>)
    ensures |rows| <= Occurrences(text, '\n') + 1
    ensures forall i :: 0 <= i < |rows| ==> |rows[i]| > 0
    ensures forall i, j :: 0 <= i < |rows| && 0 <= j < |rows[i]| ==> IsTrimmed(rows[i][j])
  {
    var lines := NonBlankLines(Split(text, '\n'));
    seq(|lines|, i requires 0 <= i < |lines| => Cells(lines[i]))
  }

  /** Filtering distributes over concatenation, so the kept lines stay in file order. */
  lemma {:induction false} NonBlankLinesAppend(a: seq<string>, b: seq<string>)
    ensures NonBlankLines(a + b) == NonBlankLines(a) + NonBlankLines(b)
  {
    if a == [] {
      assert a + b == b;
    } else {
      assert (a + b)[0] == a[0];
      assert (a + b)[1..] == a[1..] + b;
      NonBlankLinesAppend(a[1..], b);
    }
  }

  /** A single line is kept exactly when it is not blank. */
  lemma NonBlankLinesSingle(line: string)
    ensures NonBlankLines([line]) == if IsBlank(line) then [] else [line]
  {
  }

  /** Every row is the trimmed cells of one non-blank line, and the rows follow the file's line order. */
  lemma ParseCsvRows(text: string)
    ensures var lines := NonBlankLines(Split(text, '\n'));
      && |ParseCsv(text)| == |lines|
      && forall i :: 0 <= i < |lines| ==> ParseCsv(text)[i] == Cells(lines[i])
  {
  }

  /** A row has one more cell than its line has commas, and the untrimmed cells rejoin into the line. */
  lemma CellsOfLine(line: string)
    ensures |Cells(line)| == Occurrences(line, ',') + 1
    ensures Join(Split(line, ','), ',') == line
    ensures forall i :: 0 <= i < |Cells(line)| ==> Cells(line)[i] == Trim(Split(line, ',')[i])
  {
    JoinSplit(line, ',');
  }

  /** A cell the parser gives back as it is: no whitespace at either end and no ',' or line break inside. */
  predicate PlainCell(cell: string)
  {
    IsTrimmed(cell) && ',' !in cell && '\n' !in cell
  }

  /** A row the parser gives back as it is: plain cells, at least one of them non-empty. */
  predicate PlainRow(row: seq<string>)
  {
    && |row| > 0
    && (forall j :: 0 <= j < |row| ==> PlainCell(row[j]))
    && exists j :: 0 <= j < |row| && row[j] != []
  }

  /** The text of a table of plain rows: each row's cells joined by ',', the rows joined by '\n'. */
  function CsvText(rows: seq<seq<string>>): (text: string)
    requires forall i :: 0 <= i < |rows| ==> PlainRow(rows[i])
  {
    if rows == [] then []
    else Join(seq(|rows|, i requires 0 <= i < |rows| && PlainRow(rows[i]) => Join(rows[i], ',')), '\n')
  }

  /** The parser reads back any table of plain rows written as CSV text. */
  lemma ParseCsvText(rows: seq<seq<string>>)
    requires forall i :: 0 <= i < |rows| ==> PlainRow(rows[i])
    ensures ParseCsv(CsvText(rows)) == rows
  {
    if rows == [] {
      assert Split([], '\n') == [[]];
      assert NonBlankLines([[]]) == [];
    } else {
      var lines := seq(|rows|, i requires 0 <= i < |rows| && PlainRow(rows[i]) => Join(rows[i], ','));
      forall i | 0 <= i < |rows|
        ensures '\n' !in lines[i] && !IsBlank(lines[i]) && Cells(lines[i]) == rows[i]
      {
        PlainLine(rows[i]);
      }
      SplitJoin(lines, '\n');
      NonBlankLinesKeepsAll(lines);
    }
  }

  /** The line of one plain row has no line break, is not blank, and splits back into the row. */
  lemma PlainLine(row: seq<string>)
    requires PlainRow(row)
    ensures var line := Join(row, ',');
      '\n' !in line && !IsBlank(line) && Cells(line) == row
  {
    var line := Join(row, ',');
    JoinChars(row, ',', '\n');
    var j :| 0 <= j < |row| && row[j] != [];
    JoinChars(row, ',', row[j][0]);
    var k :| 0 <= k < |line| && line[k] == row[j][0];
    assert !IsWhitespace(line[k]);
    TrimEmpty(line);
    SplitJoin(row, ',');
    forall i | 0 <= i < |row| ensures Trim(row[i]) == row[i] {
      TrimIdentity(row[i]);
    }
  }

  /** With no blank line, the filter keeps every line. */
  lemma {:induction false} NonBlankLinesKeepsAll(lines: seq<string>)
    requires forall i :: 0 <= i < |lines| ==> !IsBlank(lines[i])
    ensures NonBlankLines(lines) == lines
  {
    if lines != [] {
      NonBlankLinesKeepsAll(lines[1..]);
    }
  }

  /** A line holding only whitespace produces no row. */
  lemma {:induction false} WhitespaceLineDropped(line: string)
    requires AllWhitespace(line)
    ensures NonBlankLines([line]) == []
  {
    TrimEmpty(line);
  }
}
