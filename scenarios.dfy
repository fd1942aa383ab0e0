/**
 * Worked examples of the weather table on concrete payloads, with the
 * partial `parseFloat` model of NumberParse as the number reader.
 *
 * The payload lemmas take the text as a parameter pinned by `requires data ==
 * "..."` rather than writing the literal into the ensures: the solver then
 * unfolds the literal only where a step needs it, which keeps each proof cheap.
 */
module Scenarios {
  import opened Wrappers
  import opened Strings
  import opened LineFilter
  import opened NumberParse
  import opened Averages

  /** The tallies of a single row are those of its one cell at the column. */
  lemma OneRow(row: Row, c: nat, parse: Parser)
    ensures ColumnCount([row], c, parse) == if NumericAt(row, c, parse) then 1 else 0
    ensures ColumnSum([row], c, parse) == if NumericAt(row, c, parse) then parse(row[c]).value else 0.0
  {
    assert [row][..0] == [];
  }

  lemma DigitsTenTwenty()
    ensures DigitsValue("10") == 10 && DigitsValue("20") == 20
  {
    assert "10"[..1] == "1" && "1"[..0] == "";
    assert "20"[..1] == "2" && "2"[..0] == "";
  }

  lemma ParseTen()
    ensures ParseFloat("10") == Some(10.0)
  {
    DigitsTenTwenty();
    DigitsPrefixValue("10", "");
    assert "10" + "" == "10";
  }

  lemma ParseTwenty()
    ensures ParseFloat("20") == Some(20.0)
  {
    DigitsTenTwenty();
    DigitsPrefixValue("20", "");
    assert "20" + "" == "20";
  }

  /** A cell that starts with a letter other than `I` (which may begin `Infinity`) is NaN. */
  lemma ParseLetter(s: string)
    requires s != [] && ('A' <= s[0] <= 'Z' || 'a' <= s[0] <= 'z') && s[0] != 'I'
    ensures ParseFloat(s) == None
  {
    TrimStartUnchanged(s);
    NoNumberPrefix(s);
  }

  /** The example rows under any reader that takes "10" and "20" for numbers and the letters for NaN. */
  lemma ExampleMeans(parse: Parser)
    requires parse("10") == Some(10.0) && parse("20") == Some(20.0)
    requires parse("A") == None && parse("B") == None && parse("C") == None && parse("x") == None
    ensures var rows := [["A", "10"], ["B", "20"], ["C", "x"]];
      Mean(rows, 1, parse) == Some(15.0) && Mean(rows, 0, parse) == None
  {
    var a, b, c := ["A", "10"], ["B", "20"], ["C", "x"];
    assert [a, b, c] == [a, b] + [c];
    assert [a, b] == [a] + [b];
    forall col: nat | col <= 1
      ensures ColumnCount([a, b, c], col, parse)
        == ColumnCount([a], col, parse) + ColumnCount([b], col, parse) + ColumnCount([c], col, parse)
      ensures ColumnSum([a, b, c], col, parse)
        == ColumnSum([a], col, parse) + ColumnSum([b], col, parse) + ColumnSum([c], col, parse)
    {
      ColumnAppend([a], [b], col, parse);
      ColumnAppend([a, b], [c], col, parse);
    }
    OneRow(a, 0, parse);
    OneRow(b, 0, parse);
    OneRow(c, 0, parse);
    OneRow(a, 1, parse);
    OneRow(b, 1, parse);
    OneRow(c, 1, parse);
  }

  /** Two numeric cells, 10 and 20, and one cell `x` that is skipped: the mean is 15, and the label column is blank. */
  lemma AverageSkipsNonNumeric()
    ensures var rows := [["A", "10"], ["B", "20"], ["C", "x"]];
      Mean(rows, 1, ParseFloat) == Some(15.0) && Mean(rows, 0, ParseFloat) == None
  {
    ParseTen();
    ParseTwenty();
    ParseLetter("A");
    ParseLetter("B");
    ParseLetter("C");
    ParseLetter("x");
    ExampleMeans(ParseFloat);
  }

  /** A line whose first and last characters are not whitespace survives the filter. */
  lemma KeptByEnds(s: string)
    requires s != [] && !IsJsWhitespace(s[0]) && !IsJsWhitespace(s[|s| - 1])
    ensures Kept(s)
  {
    assert TrimStart(s) == s;
  }

  /** The CR LF pieces of the example payload. */
  lemma CrLfPieces(data: string)
    requires data == "Day,Temp\r\n1,5\r\n2,8\r\n"
    ensures Split(data, LineBreak) == ["Day,Temp", "1,5", "2,8", ""]
  {
    var pieces := ["Day,Temp", "1,5", "2,8", ""];
    assert Join(pieces, LineBreak) == data;
    SplitJoin(pieces, LineBreak);
  }

  lemma CrLfKept(lines: seq<string>)
    requires lines == ["Day,Temp", "1,5", "2,8"]
    ensures forall k :: 0 <= k < |lines| ==> Kept(lines[k])
  {
    forall k | 0 <= k < |lines|
      ensures Kept(lines[k])
    {
      assert lines[k][0] != ' ' && lines[k][|lines[k]| - 1] != ' ';
      KeptByEnds(lines[k]);
    }
  }

  lemma CrLfFilter(lines: seq<string>)
    requires lines == ["Day,Temp", "1,5", "2,8"]
    ensures Filter(lines + [""], Kept) == lines
  {
    CrLfKept(lines);
    FilterAllKept(lines, Kept);
    FilterSnoc(lines, "", Kept);
    assert !Kept("");
  }

  /** A CR LF payload with a trailing line break: the empty last piece is dropped. */
  lemma CrLfPayload(data: string)
    requires data == "Day,Temp\r\n1,5\r\n2,8\r\n"
    ensures Lines(data) == ["Day,Temp", "1,5", "2,8"]
  {
    var lines := ["Day,Temp", "1,5", "2,8"];
    CrLfPieces(data);
    assert Split(data, LineBreak) == lines + [""];
    CrLfFilter(lines);
  }

  /**
   * The same payload with bare line feeds: there is no CR LF in it, so the
   * whole text is one line, the header is that line cut at its commas, and
   * there is no data row.
   */
  lemma LineFeedPayload(data: string)
    requires data == "Day,Temp\n1,5\n2,8\n"
    ensures Lines(data) == [data]
    ensures Split(data, Comma) == ["Day", "Temp\n1", "5\n2", "8\n"]
  {
    LineFeedOneLine(data);
    LineFeedCells(data);
  }

  lemma LineFeedOneLine(data: string)
    requires data == "Day,Temp\n1,5\n2,8\n"
    ensures Lines(data) == [data]
  {
    LineFeedNoCrLf(data);
    LineFeedNotBlank(data);
    BareLineFeedIsOneLine(data);
  }

  lemma LineFeedNotBlank(data: string)
    requires data == "Day,Temp\n1,5\n2,8\n"
    ensures !Blank(data)
  {
    assert !IsJsWhitespace(data[0]);
  }

  lemma LineFeedNoCrLf(data: string)
    requires data == "Day,Temp\n1,5\n2,8\n"
    ensures !Contains(data, LineBreak)
  {
    assert LineBreak[0] == '\r';
    assert forall i :: 0 <= i < |data| ==> data[i] != '\r';
    WithoutFirstChar(data, LineBreak);
  }

  lemma LineFeedCells(data: string)
    requires data == "Day,Temp\n1,5\n2,8\n"
    ensures Split(data, Comma) == ["Day", "Temp\n1", "5\n2", "8\n"]
  {
    var cells := ["Day", "Temp\n1", "5\n2", "8\n"];
    assert Comma == ",";
    assert Join(cells, ",") == data;
    SplitJoin(cells, Comma);
  }

  lemma BlankPieces(data: string)
    requires data == "\r\n \t\r\n"
    ensures Split(data, LineBreak) == ["", " \t", ""]
  {
    var pieces := ["", " \t", ""];
    assert Join(pieces, LineBreak) == data;
    SplitJoin(pieces, LineBreak);
  }

  /** A blank line does not survive the filter. */
  lemma BlankNotKept(s: string)
    requires Blank(s)
    ensures !Kept(s)
  {
    TrimEmptyIffBlank(s);
  }

  /** Pieces that are all blank leave nothing after the line filter. */
  lemma BlankFilter(pieces: seq<string>)
    requires forall k :: 0 <= k < |pieces| ==> Blank(pieces[k])
    ensures Filter(pieces, Kept) == []
  {
    forall k | 0 <= k < |pieces|
      ensures !Kept(pieces[k])
    {
      BlankNotKept(pieces[k]);
    }
    FilterNoneKept(pieces, Kept);
  }

  lemma BlankPiecesAreBlank(pieces: seq<string>)
    requires pieces == ["", " \t", ""]
    ensures forall k :: 0 <= k < |pieces| ==> Blank(pieces[k])
  {
    assert Blank(pieces[1]) by {
      assert IsJsWhitespace(pieces[1][0]) && IsJsWhitespace(pieces[1][1]);
    }
  }

  /** A payload of blank lines leaves no line, so the header read fails and no table is built. */
  lemma BlankPayload(data: string)
    requires data == "\r\n \t\r\n"
    ensures Lines(data) == []
  {
    BlankPieces(data);
    BlankPiecesAreBlank(Split(data, LineBreak));
    BlankFilter(Split(data, LineBreak));
  }
}
