/**
 * The data path of the weather page: the response of the fetch becomes a
 * table of header cells, data rows and a trailing summary row of column
 * averages, or the promise chain's catch path is taken.
 *
 * The table is returned as plain sequences in place of the `thead`, `tbody`
 * and `tr`/`td` elements the page builds; summary cells are `None` where the
 * page leaves the `td` empty.
 */
module WeatherTable {
  import opened Wrappers
  import opened Strings
  import opened LineFilter
  import opened Averages

  /** What the fetch produced: a transport failure, or a response with its status flag and body text. */
  datatype Fetched = TransportError | Response(ok: bool, body: string)

  /** Why the catch handler ran. */
  datatype Failure =
    | TransportFailed   // the fetch promise rejected
    | NotOk             // the response's status was not in the success range
    | NoHeaderLine      // no line survived the blank filter, so `lines[0]` was undefined

  /** What the page shows: the header cells, one row per data line, and the summary row. */
  datatype Table = Table(header: seq<string>, rows: seq<Row>, summary: seq<Option<real>>)

  /** The summary loop's cells, read from slots that tally `rows`, are the column means. */
  lemma SummaryIsMean(rows: seq<Row>, avgSum: map<nat, real>, avgCount: map<nat, nat>,
                      summary: seq<Option<real>>, parse: Parser)
    requires Tallies(rows, avgSum, avgCount, parse)
    requires forall c :: 0 <= c < |summary| ==>
      (summary[c].Some? <==> c in avgCount && avgCount[c] > 0)
    requires forall c :: 0 <= c < |summary| && summary[c].Some? ==>
      summary[c].value == avgSum[c] / avgCount[c] as real
    ensures forall c :: 0 <= c < |summary| ==> summary[c] == Mean(rows, c, parse)
  {
    forall c | 0 <= c < |summary|
      ensures summary[c] == Mean(rows, c, parse)
    {
      if c in avgCount {
        assert avgCount[c] == ColumnCount(rows, c, parse) && avgSum[c] == ColumnSum(rows, c, parse);
      } else {
        assert ColumnCount(rows, c, parse) == 0;
      }
    }
  }

  /**
   * `t` is what the page shows for the surviving `lines`: the header is the
   * first line split on commas (one more cell than it has commas, and joining
   * the cells with commas gives the line back); every later line is one row,
   * in order, split the same way and not padded to the header width; the
   * summary has as many cells as the last row (none without data rows), each
   * the mean of its column's numeric cells, or blank.
   */
  ghost predicate Displays(lines: seq<string>, t: Table, parse: Parser)
  {
    && |lines| > 0
    && t.header == Split(lines[0], Comma)
    && Join(t.header, Comma) == lines[0]
    && |t.header| == CountChar(lines[0], CommaChar) + 1
    && |t.rows| == |lines| - 1
    && (forall i :: 0 <= i < |t.rows| ==>
          t.rows[i] == Split(lines[i + 1], Comma) && Join(t.rows[i], Comma) == lines[i + 1])
    && |t.summary| == (if t.rows == [] then 0 else |t.rows[|t.rows| - 1]|)
    && (forall c :: 0 <= c < |t.summary| ==> t.summary[c] == Mean(t.rows, c, parse))
  }

  /**
   * The success path of the second `.then` callback, from the surviving lines
   * on: the header split, the row loop and the summary loop.
   */
  method BuildTable(lines: seq<string>, parse: Parser) returns (t: Table)
    requires |lines| > 0
    ensures Displays(lines, t, parse)
  {
    var header := Split(lines[0], Comma);
    JoinSplit(lines[0], Comma);
    SplitCharCount(lines[0], CommaChar);
    var rows, avgSum, avgCount, cellCount := AccumulateRows(lines, parse);
    forall i | 0 <= i < |rows|
      ensures Join(rows[i], Comma) == lines[i + 1]
    {
      JoinSplit(lines[i + 1], Comma);
    }
    var summary := SummaryRow(avgSum, avgCount, cellCount);
    SummaryIsMean(rows, avgSum, avgCount, summary, parse);
    t := Table(header, rows, summary);
  }

  /**
   * The whole promise chain: a transport failure, a response that is not ok,
   * or a payload with no non-blank line takes the catch path and produces no
   * table; otherwise the table is built from the surviving lines.
   */
  method LoadTable(fetched: Fetched, parse: Parser) returns (r: Result<Table, Failure>)
    ensures fetched.TransportError? ==> r == Failure(TransportFailed)
    ensures fetched.Response? && !fetched.ok ==> r == Failure(NotOk)
    ensures fetched.Response? && fetched.ok && Lines(fetched.body) == [] ==> r == Failure(NoHeaderLine)
    ensures fetched.Response? && fetched.ok && Lines(fetched.body) != [] ==> r.Success?
    ensures r.Success? ==> fetched.Response? && Displays(Lines(fetched.body), r.value, parse)
  {
    if fetched.TransportError? {
      return Failure(TransportFailed);
    }
    if !fetched.ok {
      return Failure(NotOk);
    }
    var lines := Lines(fetched.body);
    if |lines| == 0 {
      return Failure(NoHeaderLine);
    }
    var t := BuildTable(lines, parse);
    r := Success(t);
  }
}
