/** The naive CSV splitter of the data service (`parseCSV`): split the text
    on line feeds, split each line on commas, trim each cell and delete every
    double quote. There is no quoting: a comma or a line feed inside quotes
    still separates cells or rows. */
module Csv {
  import opened Seqs
  import opened Text

  type Row = seq<string>

  /** One cell: trimmed, then stripped of every `"`. */
  function ParseCell(cell: string): (r: string)
    ensures '"' !in r
  {
    Remove(Trim(cell), '"')
  }

  /** One line: its comma-separated cells. */
  function ParseLine(line: string): (cells: Row)
    ensures |cells| == Count(line, ',') + 1
    ensures forall j :: 0 <= j < |cells| ==> '"' !in cells[j]
  {
    var raw := Split(line, ',');
    seq(|raw|, j requires 0 <= j < |raw| => ParseCell(raw[j]))
  }

  /** `parseCSV(text)`: one row per line-feed-separated line, so one more
      row than there are line feeds; each row has one more cell than its
      line has commas; no cell holds a double quote. */
  function ParseCsv(text: string): (rows: seq<Row>)
    ensures |rows| == Count(text, '\n') + 1
    ensures forall k :: 0 <= k < |rows| ==> |rows[k]| == Count(Split(text, '\n')[k], ',') + 1
    ensures forall k, j :: 0 <= k < |rows| && 0 <= j < |rows[k]| ==> '"' !in rows[k][j]
  {
    var lines := Split(text, '\n');
    seq(|lines|, k requires 0 <= k < |lines| => ParseLine(lines[k]))
  }

  /** Empty text is one row holding one empty cell, not an empty table. */
  lemma EmptyText()
    ensures ParseCsv("") == [[""]]
  {
    assert Split("", '\n') == [""];
    assert Split("", ',') == [""];
    assert Trim("") == "";
    assert Filter("", d => d != '"') == "";
    assert ParseLine("") == [""];
  }

  /** A cell the parser leaves alone: no separator, no quote, and no
      whitespace at either end. */
  predicate PlainCell(cell: string) {
    && ',' !in cell && '\n' !in cell && '"' !in cell
    && (cell != [] ==> !IsWhitespace(cell[0]) && !IsWhitespace(cell[|cell| - 1]))
  }

  /** The text of a table: cells joined by commas, rows by line feeds. */
  function TableText(rows: seq<Row>): string {
    Join(seq(|rows|, k requires 0 <= k < |rows| => Join(rows[k], ',')), '\n')
  }

  /** Parsing undoes writing for every table with at least one row, at least
      one cell per row and only plain cells. */
  lemma ParseTableText(rows: seq<Row>)
    requires |rows| >= 1
    requires forall k :: 0 <= k < |rows| ==> |rows[k]| >= 1
    requires forall k, j :: 0 <= k < |rows| && 0 <= j < |rows[k]| ==> PlainCell(rows[k][j])
    ensures ParseCsv(TableText(rows)) == rows
  {
    var lines := seq(|rows|, k requires 0 <= k < |rows| => Join(rows[k], ','));
    forall k | 0 <= k < |rows|
      ensures '\n' !in lines[k]
      ensures ParseLine(lines[k]) == rows[k]
    {
      JoinAvoids(rows[k], ',', '\n');
      SplitJoin(rows[k], ',');
      forall j | 0 <= j < |rows[k]| ensures ParseCell(rows[k][j]) == rows[k][j] {
        var c := rows[k][j];
        TrimIdentity(c);
        FilterAll(c, d => d != '"');
      }
    }
    SplitJoin(lines, '\n');
  }

  /** Joining parts that avoid a character, with a separator other than that
      character, gives a text that avoids it too. */
  lemma {:induction false} JoinAvoids(parts: seq<string>, sep: char, c: char)
    requires sep != c
    requires forall k :: 0 <= k < |parts| ==> c !in parts[k]
    ensures c !in Join(parts, sep)
  {
    if |parts| > 1 {
      JoinAvoids(parts[1..], sep, c);
    }
  }

  /** Quotes are deleted after trimming, so whitespace inside quotes
      survives: the cell ` " a " ` reads as ` a `. */
  lemma QuotedPaddingSurvives()
    ensures ParseCell(" \" a \" ") == " a "
  {
    assert TrimStart(" \" a \" ") == "\" a \" ";
    assert TrimEnd("\" a \" ") == "\" a \"";
    assert Trim(" \" a \" ") == "\" a \"";
    assert Filter(" a \"", d => d != '"') == " a ";
    assert Filter("\" a \"", d => d != '"') == " a ";
  }
}
