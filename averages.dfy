/**
 * The row loop of the weather table and its per-column running averages.
 *
 * Each data line is split on commas into a row of raw cells. For every cell
 * that parses as a number, the slot of its column in two sparse arrays,
 * `avgSum` and `avgCount`, is created at zero the first time and then grows by
 * the value and by one. Cells that do not parse are skipped. The summary row
 * has as many cells as the last data row; a cell shows `sum / count` when the
 * column's count is positive and is blank otherwise.
 *
 * The sparse arrays are maps from column index to slot; an index that is not
 * a key is an unset slot. Number parsing is a parameter: `None` stands for NaN.
 */
module Averages {
  import opened Wrappers
  import opened Strings

  /** The field separator of the weather payload, as a character and as the text `split` is given. */
  const CommaChar: char := ','
  const Comma: string := [CommaChar]

  /** One data row: its raw cells, not padded or cut to the header width. */
  type Row = seq<string>

  /** How a cell's text is read as a number (`parseFloat`); `None` is NaN. */
  type Parser = string -> Option<real>

  /** Row `row` has a cell at column `c` and that cell parses as a number. */
  predicate NumericAt(row: Row, c: nat, parse: Parser)
  {
    c < |row| && parse(row[c]).Some?
  }

  /** How many of `rows` hold a numeric cell at column `c`. */
  function ColumnCount(rows: seq<Row>, c: nat, parse: Parser): (n: nat)
    ensures n <= |rows|
  {
    if rows == [] then 0
    else
      var last := |rows| - 1;
      ColumnCount(rows[..last], c, parse) + (if NumericAt(rows[last], c, parse) then 1 else 0)
  }

  /** The sum of the values of the numeric cells at column `c` of `rows`. */
  function ColumnSum(rows: seq<Row>, c: nat, parse: Parser): real
  {
    if rows == [] then 0.0
    else
      var last := |rows| - 1;
      ColumnSum(rows[..last], c, parse)
        + (if NumericAt(rows[last], c, parse) then parse(rows[last][c]).value else 0.0)
  }

  /**
   * The arithmetic mean of the numeric cells at column `c`: defined exactly when
   * some row has a numeric cell there, and then the value whose product with the
   * count is the sum.
   */
  function Mean(rows: seq<Row>, c: nat, parse: Parser): (m: Option<real>)
    ensures m.Some? <==> exists k :: 0 <= k < |rows| && NumericAt(rows[k], c, parse)
    ensures m.Some? ==> m.value * ColumnCount(rows, c, parse) as real == ColumnSum(rows, c, parse)
  {
    ColumnCountPositive(rows, c, parse);
    var n := ColumnCount(rows, c, parse);
    if n > 0 then Some(ColumnSum(rows, c, parse) / n as real) else None
  }

  /** Counting and summing over two batches of rows adds up: the order rows are seen in does not matter. */
  lemma {:induction false} ColumnAppend(a: seq<Row>, b: seq<Row>, c: nat, parse: Parser)
    ensures ColumnCount(a + b, c, parse) == ColumnCount(a, c, parse) + ColumnCount(b, c, parse)
    ensures ColumnSum(a + b, c, parse) == ColumnSum(a, c, parse) + ColumnSum(b, c, parse)
    decreases |b|
  {
    if b == [] {
      assert a + b == a;
    } else {
      var last := |b| - 1;
      ColumnAppend(a, b[..last], c, parse);
      assert (a + b)[..|a + b| - 1] == a + b[..last];
      assert (a + b)[|a + b| - 1] == b[last];
    }
  }

  /** A column has a positive count exactly when some row has a numeric cell there. */
  lemma {:induction false} ColumnCountPositive(rows: seq<Row>, c: nat, parse: Parser)
    ensures ColumnCount(rows, c, parse) > 0 <==> exists k :: 0 <= k < |rows| && NumericAt(rows[k], c, parse)
  {
    if rows != [] {
      var last := |rows| - 1;
      ColumnCountPositive(rows[..last], c, parse);
      if exists k :: 0 <= k < |rows| && NumericAt(rows[k], c, parse) {
        var k :| 0 <= k < |rows| && NumericAt(rows[k], c, parse);
        if k < last {
          assert rows[..last][k] == rows[k];
        }
      }
      if exists k :: 0 <= k < last && NumericAt(rows[..last][k], c, parse) {
        var k :| 0 <= k < last && NumericAt(rows[..last][k], c, parse);
        assert rows[k] == rows[..last][k];
      }
    }
  }

  /** When every numeric cell of column `c` is at least `lo`, the sum is at least `lo` times the count. */
  lemma {:induction false} ColumnSumAtLeast(rows: seq<Row>, c: nat, parse: Parser, lo: real)
    requires forall k :: 0 <= k < |rows| && NumericAt(rows[k], c, parse) ==> lo <= parse(rows[k][c]).value
    ensures lo * ColumnCount(rows, c, parse) as real <= ColumnSum(rows, c, parse)
  {
    if rows != [] {
      var last := |rows| - 1;
      var front := rows[..last];
      assert forall k :: 0 <= k < last ==> front[k] == rows[k];
      ColumnSumAtLeast(front, c, parse, lo);
      var sum, count := ColumnSum(front, c, parse), ColumnCount(front, c, parse) as real;
      if NumericAt(rows[last], c, parse) {
        var v := parse(rows[last][c]).value;
        assert ColumnSum(rows, c, parse) == sum + v && ColumnCount(rows, c, parse) as real == count + 1.0;
        LowerStep(sum, count, v, lo, ColumnSum(rows, c, parse), ColumnCount(rows, c, parse) as real);
      } else {
        assert ColumnSum(rows, c, parse) == sum && ColumnCount(rows, c, parse) as real == count;
      }
    }
  }

  /** When every numeric cell of column `c` is at most `hi`, the sum is at most `hi` times the count. */
  lemma {:induction false} ColumnSumAtMost(rows: seq<Row>, c: nat, parse: Parser, hi: real)
    requires forall k :: 0 <= k < |rows| && NumericAt(rows[k], c, parse) ==> parse(rows[k][c]).value <= hi
    ensures ColumnSum(rows, c, parse) <= hi * ColumnCount(rows, c, parse) as real
  {
    if rows != [] {
      var last := |rows| - 1;
      var front := rows[..last];
      assert forall k :: 0 <= k < last ==> front[k] == rows[k];
      ColumnSumAtMost(front, c, parse, hi);
      var sum, count := ColumnSum(front, c, parse), ColumnCount(front, c, parse) as real;
      if NumericAt(rows[last], c, parse) {
        var v := parse(rows[last][c]).value;
        assert ColumnSum(rows, c, parse) == sum + v && ColumnCount(rows, c, parse) as real == count + 1.0;
        UpperStep(sum, count, v, hi, ColumnSum(rows, c, parse), ColumnCount(rows, c, parse) as real);
      } else {
        assert ColumnSum(rows, c, parse) == sum && ColumnCount(rows, c, parse) as real == count;
      }
    }
  }

  lemma LowerStep(s: real, n: real, v: real, lo: real, s': real, n': real)
    requires lo * n <= s && lo <= v && s' == s + v && n' == n + 1.0
    ensures lo * n' <= s'
  {
  }

  lemma UpperStep(s: real, n: real, v: real, hi: real, s': real, n': real)
    requires s <= hi * n && v <= hi && s' == s + v && n' == n + 1.0
    ensures s' <= hi * n'
  {
  }

  lemma DivisionBounds(s: real, n: real, lo: real, hi: real)
    requires n > 0.0 && lo * n <= s <= hi * n
    ensures lo <= s / n <= hi
  {
  }

  /**
   * The mean of a column lies between any lower and upper bound of its numeric
   * cells: it is a true average, not merely some ratio.
   */
  lemma MeanWithinBounds(rows: seq<Row>, c: nat, parse: Parser, lo: real, hi: real)
    requires forall k :: 0 <= k < |rows| && NumericAt(rows[k], c, parse) ==>
      lo <= parse(rows[k][c]).value <= hi
    requires exists k :: 0 <= k < |rows| && NumericAt(rows[k], c, parse)
    ensures Mean(rows, c, parse).Some?
    ensures lo <= Mean(rows, c, parse).value <= hi
  {
    ColumnCountPositive(rows, c, parse);
    ColumnSumAtLeast(rows, c, parse, lo);
    ColumnSumAtMost(rows, c, parse, hi);
    DivisionBounds(ColumnSum(rows, c, parse), ColumnCount(rows, c, parse) as real, lo, hi);
  }

  /** A column without numeric cells sums to zero. */
  lemma {:induction false} ColumnSumWithoutCount(rows: seq<Row>, c: nat, parse: Parser)
    requires ColumnCount(rows, c, parse) == 0
    ensures ColumnSum(rows, c, parse) == 0.0
  {
    if rows != [] {
      ColumnSumWithoutCount(rows[..|rows| - 1], c, parse);
    }
  }

  /** Slot contents agree with counting and summing the numeric cells of `rows`. */
  ghost predicate Tallies(rows: seq<Row>, avgSum: map<nat, real>, avgCount: map<nat, nat>, parse: Parser)
  {
    && avgSum.Keys == avgCount.Keys
    && (forall c: nat :: c in avgCount <==> ColumnCount(rows, c, parse) > 0)
    && (forall c :: c in avgCount ==>
          avgCount[c] == ColumnCount(rows, c, parse) && avgSum[c] == ColumnSum(rows, c, parse))
  }

  /** Seeing one more cell of a row changes the tallies of that cell's column only. */
  lemma ExtendPartialRow(rows: seq<Row>, row: Row, j: nat, c: nat, parse: Parser)
    requires j < |row|
    ensures ColumnCount(rows + [row[..j + 1]], c, parse)
      == ColumnCount(rows + [row[..j]], c, parse) + (if c == j && parse(row[j]).Some? then 1 else 0)
    ensures ColumnSum(rows + [row[..j + 1]], c, parse)
      == ColumnSum(rows + [row[..j]], c, parse) + (if c == j && parse(row[j]).Some? then parse(row[j]).value else 0.0)
  {
    assert (rows + [row[..j + 1]])[..|rows|] == rows;
    assert (rows + [row[..j]])[..|rows|] == rows;
  }

  /** A row with no cells yet leaves every tally as it was. */
  lemma EmptyPartialRow(rows: seq<Row>, row: Row, c: nat, parse: Parser)
    ensures ColumnCount(rows + [row[..0]], c, parse) == ColumnCount(rows, c, parse)
    ensures ColumnSum(rows + [row[..0]], c, parse) == ColumnSum(rows, c, parse)
  {
    assert (rows + [row[..0]])[..|rows|] == rows;
  }

  /** Counting the cells of a new, still empty row keeps the tallies. */
  lemma TalliesStartRow(rows: seq<Row>, row: Row, avgSum: map<nat, real>, avgCount: map<nat, nat>, parse: Parser)
    requires Tallies(rows, avgSum, avgCount, parse)
    ensures Tallies(rows + [row[..0]], avgSum, avgCount, parse)
  {
    forall c: nat
      ensures ColumnCount(rows + [row[..0]], c, parse) == ColumnCount(rows, c, parse)
      ensures ColumnSum(rows + [row[..0]], c, parse) == ColumnSum(rows, c, parse)
    {
      EmptyPartialRow(rows, row, c, parse);
    }
  }

  /**
   * Cell `j` of the current row: a numeric cell creates its column's slots at
   * zero when unset and adds its value and one; any other cell changes nothing.
   */
  lemma TalliesStepCell(rows: seq<Row>, row: Row, j: nat,
                        avgSum: map<nat, real>, avgCount: map<nat, nat>,
                        avgSum': map<nat, real>, avgCount': map<nat, nat>, parse: Parser)
    requires j < |row|
    requires Tallies(rows + [row[..j]], avgSum, avgCount, parse)
    requires parse(row[j]).None? ==> avgSum' == avgSum && avgCount' == avgCount
    requires parse(row[j]).Some? ==>
      && avgSum' == avgSum[j := (if j in avgSum then avgSum[j] else 0.0) + parse(row[j]).value]
      && avgCount' == avgCount[j := (if j in avgCount then avgCount[j] else 0) + 1]
    ensures Tallies(rows + [row[..j + 1]], avgSum', avgCount', parse)
  {
    var before, after := rows + [row[..j]], rows + [row[..j + 1]];
    forall c: nat
      ensures c in avgCount' <==> ColumnCount(after, c, parse) > 0
      ensures c in avgCount' ==>
        avgCount'[c] == ColumnCount(after, c, parse) && avgSum'[c] == ColumnSum(after, c, parse)
    {
      ExtendPartialRow(rows, row, j, c, parse);
      if c == j && parse(row[j]).Some? {
        if j !in avgCount {
          ColumnSumWithoutCount(before, c, parse);
        }
        assert ColumnCount(after, c, parse) == ColumnCount(before, c, parse) + 1;
        assert avgCount'[c] == ColumnCount(before, c, parse) + 1;
        assert avgSum'[c] == ColumnSum(before, c, parse) + parse(row[j]).value;
      } else {
        assert ColumnCount(after, c, parse) == ColumnCount(before, c, parse);
        assert ColumnSum(after, c, parse) == ColumnSum(before, c, parse);
        assert c in avgCount' <==> c in avgCount;
      }
    }
  }

  /**
   * One cell of the row loop: a cell that parses as a number creates the slots
   * of its column at zero when they are unset, then adds its value to the sum
   * and one to the count; a cell that does not parse leaves the slots alone.
   */
  method TallyCell(avgSum: map<nat, real>, avgCount: map<nat, nat>, c: nat, cell: string, parse: Parser)
    returns (avgSum': map<nat, real>, avgCount': map<nat, nat>)
    ensures parse(cell).None? ==> avgSum' == avgSum && avgCount' == avgCount
    ensures parse(cell).Some? ==>
      && avgSum' == avgSum[c := (if c in avgSum then avgSum[c] else 0.0) + parse(cell).value]
      && avgCount' == avgCount[c := (if c in avgCount then avgCount[c] else 0) + 1]
  {
    avgSum', avgCount' := avgSum, avgCount;
    var value := parse(cell);
    if value.Some? {
      if c !in avgSum' {
        avgSum' := avgSum'[c := 0.0];
      }
      if c !in avgCount' {
        avgCount' := avgCount'[c := 0];
      }
      avgSum' := avgSum'[c := avgSum'[c] + value.value];
      avgCount' := avgCount'[c := avgCount'[c] + 1];
    }
  }

  /**
   * The cell loop of one row: every cell goes through `TallyCell`, so the slots
   * that tallied the earlier rows end up tallying those rows and this one.
   * `cellCount` ends as the number of cells of the row.
   */
  method TallyRow(rows: seq<Row>, row: Row, avgSum: map<nat, real>, avgCount: map<nat, nat>, parse: Parser)
    returns (avgSum': map<nat, real>, avgCount': map<nat, nat>, cellCount: nat)
    requires Tallies(rows, avgSum, avgCount, parse)
    ensures Tallies(rows + [row], avgSum', avgCount', parse)
    ensures cellCount == |row|
  {
    avgSum', avgCount', cellCount := avgSum, avgCount, 0;
    TalliesStartRow(rows, row, avgSum', avgCount', parse);
    while cellCount < |row|
      invariant cellCount <= |row|
      invariant Tallies(rows + [row[..cellCount]], avgSum', avgCount', parse)
    {
      ghost var sumBefore, countBefore := avgSum', avgCount';
      avgSum', avgCount' := TallyCell(avgSum', avgCount', cellCount, row[cellCount], parse);
      TalliesStepCell(rows, row, cellCount, sumBefore, countBefore, avgSum', avgCount', parse);
      cellCount := cellCount + 1;
    }
    assert row[..cellCount] == row;
  }

  /**
   * The row loop: splits every line after the first on commas and, cell by
   * cell, keeps `avgSum` and `avgCount` equal to the sum and count of the
   * numeric cells seen so far in each column. `cellCount` ends as the number of
   * cells of the last row, or 0 when there is no data row.
   */
  method AccumulateRows(lines: seq<string>, parse: Parser)
    returns (rows: seq<Row>, avgSum: map<nat, real>, avgCount: map<nat, nat>, cellCount: nat)
    ensures |rows| == if |lines| == 0 then 0 else |lines| - 1
    ensures forall i :: 0 <= i < |rows| ==> rows[i] == Split(lines[i + 1], Comma)
    ensures avgSum.Keys == avgCount.Keys
    ensures forall c: nat :: c in avgCount <==> ColumnCount(rows, c, parse) > 0
    ensures forall c :: c in avgCount ==>
      avgCount[c] == ColumnCount(rows, c, parse) && avgSum[c] == ColumnSum(rows, c, parse)
    ensures cellCount == if rows == [] then 0 else |rows[|rows| - 1]|
  {
    rows, avgSum, avgCount, cellCount := [], map[], map[], 0;
    var i := 1;
    while i < |lines|
      invariant if |lines| == 0 then i == 1 else 1 <= i <= |lines|
      invariant |rows| == i - 1
      invariant forall k :: 0 <= k < |rows| ==> rows[k] == Split(lines[k + 1], Comma)
      invariant Tallies(rows, avgSum, avgCount, parse)
      invariant cellCount == if rows == [] then 0 else |rows[|rows| - 1]|
    {
      var rowData := Split(lines[i], Comma);
      avgSum, avgCount, cellCount := TallyRow(rows, rowData, avgSum, avgCount, parse);
      rows := rows + [rowData];
      i := i + 1;
    }
  }

  /**
   * The summary loop: `cellCount` cells, cell `c` holding `avgSum[c] / avgCount[c]`
   * when slot `c` is set with a positive count, and blank otherwise.
   */
  method SummaryRow(avgSum: map<nat, real>, avgCount: map<nat, nat>, cellCount: nat)
    returns (summary: seq<Option<real>>)
    requires avgCount.Keys <= avgSum.Keys
    ensures |summary| == cellCount
    ensures forall c :: 0 <= c < cellCount ==>
      (summary[c].Some? <==> c in avgCount && avgCount[c] > 0)
    ensures forall c :: 0 <= c < cellCount && summary[c].Some? ==>
      summary[c].value == avgSum[c] / avgCount[c] as real
  {
    summary := [];
    var i := 0;
    while i < cellCount
      invariant i <= cellCount && |summary| == i
      invariant forall c :: 0 <= c < i ==>
        summary[c] == if c in avgCount && avgCount[c] > 0 then Some(avgSum[c] / avgCount[c] as real) else None
    {
      var cell := None;
      if i in avgCount && avgCount[i] > 0 {
        cell := Some(avgSum[i] / avgCount[i] as real);
      }
      summary := summary + [cell];
      i := i + 1;
    }
  }
}
