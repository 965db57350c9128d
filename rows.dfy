/** Turning model output into rows, and rows into accepted questions and
    rejection reports. Both compilers share this shape; each supplies its own
    per-row verdict. */
module Rows {
  import opened PyStrings
  import opened Records

  /** What validation decides about one row. */
  datatype Verdict = Accept(question: Question) | Reject(reason: string, detail: string)

  /** The elements of `xs` that are not blank, in order. */
  function KeepNonBlank(xs: seq<string>): (r: seq<string>)
    ensures |r| <= |xs|
    ensures forall k | 0 <= k < |r| :: !IsBlank(r[k])
  {
    if xs == [] then []
    else (if IsBlank(xs[0]) then [] else [xs[0]]) + KeepNonBlank(xs[1..])
  }

  /** The filter keeps exactly the non-blank elements. */
  lemma {:induction false} KeepNonBlankExact(xs: seq<string>)
    ensures forall x :: x in KeepNonBlank(xs) <==> x in xs && !IsBlank(x)
  {
    if xs != [] {
      KeepNonBlankExact(xs[1..]);
      assert xs == [xs[0]] + xs[1..];
    }
  }

  /** `[ln for ln in text.splitlines() if ln.strip()]`. The extra empty pieces
      `SplitLines` yields for `\r\n` and for a final line break are blank, so
      the filtered list is the same. */
  function NonBlankLines(text: string): (lines: seq<string>)
    ensures forall k | 0 <= k < |lines| :: !IsBlank(lines[k])
  {
    KeepNonBlank(SplitLines(text))
  }

  /** The rows `parse_tsv` returns, as a value. */
  function TsvRows(text: string): seq<seq<string>> {
    var lines := NonBlankLines(text);
    seq(|lines|, i requires 0 <= i < |lines| => Split(lines[i], '\t'))
  }

  /** `parse_tsv`: one row per non-blank line, its cells the tab-separated
      fields. */
  method ParseTsv(text: string) returns (rows: seq<seq<string>>)
    ensures rows == TsvRows(text)
  {
    var lines := NonBlankLines(text);
    ghost var all := TsvRows(text);
    rows := [];
    for i := 0 to |lines|
      invariant rows == all[..i]
    {
      assert all[i] == Split(lines[i], '\t');
      assert all[..i + 1] == all[..i] + [all[i]];
      rows := rows + [Split(lines[i], '\t')];
    }
    assert all[..|lines|] == all;
  }

  /** No cell of a parsed row holds a tab, and the cells joined by tabs give
      back the line, so a row is exactly its line cut at every tab. */
  lemma TsvRowsRejoin(text: string)
    ensures |TsvRows(text)| == |NonBlankLines(text)|
    ensures forall i | 0 <= i < |TsvRows(text)| :: Join("\t", TsvRows(text)[i]) == NonBlankLines(text)[i]
    ensures forall i, c | 0 <= i < |TsvRows(text)| && 0 <= c < |TsvRows(text)[i]| :: '\t' !in TsvRows(text)[i][c]
  {
    var lines := NonBlankLines(text);
    forall i | 0 <= i < |lines| ensures Join("\t", TsvRows(text)[i]) == lines[i] {
      JoinSplit(lines[i], '\t');
    }
  }

  /** The questions of the accepted rows, in row order. */
  function Accepted(rows: seq<seq<string>>, classify: seq<string> -> Verdict): (qs: seq<Question>)
    ensures |qs| <= |rows|
    ensures forall k | 0 <= k < |qs| :: exists i | 0 <= i < |rows| :: classify(rows[i]) == Accept(qs[k])
  {
    if rows == [] then []
    else
      var n := |rows|;
      var before := Accepted(rows[..n - 1], classify);
      assert forall k | 0 <= k < |before| :: exists i | 0 <= i < n :: classify(rows[i]) == Accept(before[k]) by {
        forall k | 0 <= k < |before| ensures exists i | 0 <= i < n :: classify(rows[i]) == Accept(before[k]) {
          var i :| 0 <= i < n - 1 && classify(rows[..n - 1][i]) == Accept(before[k]);
          assert rows[..n - 1][i] == rows[i];
        }
      }
      match classify(rows[n - 1])
      case Accept(q) => before + [q]
      case Reject(_, _) => before
  }

  /** One report per rejected row, numbered from 1, in row order. */
  function Rejected(rows: seq<seq<string>>, classify: seq<string> -> Verdict): (rs: seq<Report>)
    ensures |rs| <= |rows|
    ensures forall k | 0 <= k < |rs| ::
      1 <= rs[k].rowIndex <= |rows| && classify(rows[rs[k].rowIndex - 1]) == Reject(rs[k].reason, rs[k].detail)
    ensures forall k, l | 0 <= k < l < |rs| :: rs[k].rowIndex < rs[l].rowIndex
  {
    if rows == [] then []
    else
      var n := |rows|;
      var before := Rejected(rows[..n - 1], classify);
      assert forall k | 0 <= k < |before| :: rows[..n - 1][before[k].rowIndex - 1] == rows[before[k].rowIndex - 1];
      match classify(rows[n - 1])
      case Accept(_) => before
      case Reject(reason, detail) => before + [Report(n, reason, detail)]
  }

  /** Every row ends up in exactly one of the two lists. */
  lemma {:induction false} PartitionCount(rows: seq<seq<string>>, classify: seq<string> -> Verdict)
    ensures |Accepted(rows, classify)| + |Rejected(rows, classify)| == |rows|
  {
    if rows != [] {
      PartitionCount(rows[..|rows| - 1], classify);
    }
  }

  /** Every rejected row has a report carrying its number. */
  lemma {:induction false} RejectedComplete(rows: seq<seq<string>>, classify: seq<string> -> Verdict, i: int)
    requires 0 <= i < |rows| && classify(rows[i]).Reject?
    ensures exists k | 0 <= k < |Rejected(rows, classify)| :: Rejected(rows, classify)[k].rowIndex == i + 1
  {
    var n := |rows|;
    if i < n - 1 {
      RejectedComplete(rows[..n - 1], classify, i);
      var k :| 0 <= k < |Rejected(rows[..n - 1], classify)| && Rejected(rows[..n - 1], classify)[k].rowIndex == i + 1;
      assert Rejected(rows, classify)[k] == Rejected(rows[..n - 1], classify)[k];
    } else {
      var rs := Rejected(rows, classify);
      assert rs[|rs| - 1].rowIndex == n;
    }
  }

  /** `validate_rows_individually`: walks the rows in order, keeping each
      accepted question and reporting each rejected row with its 1-based
      number, reason and detail. */
  method ValidateRows(rows: seq<seq<string>>, classify: seq<string> -> Verdict)
    returns (valid: seq<Question>, invalid: seq<Report>)
    ensures valid == Accepted(rows, classify)
    ensures invalid == Rejected(rows, classify)
    ensures |valid| + |invalid| == |rows|
  {
    valid := [];
    invalid := [];
    for i := 0 to |rows|
      invariant valid == Accepted(rows[..i], classify)
      invariant invalid == Rejected(rows[..i], classify)
    {
      assert rows[..i + 1][..i] == rows[..i];
      match classify(rows[i]) {
        case Accept(q) =>
          valid := valid + [q];
        case Reject(reason, detail) =>
          invalid := invalid + [Report(i + 1, reason, detail)];
      }
    }
    assert rows[..|rows|] == rows;
    PartitionCount(rows, classify);
  }
}
