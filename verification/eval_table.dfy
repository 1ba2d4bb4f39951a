/** The evaluation-result reshaper of pytrec_eval/examples/parse_eval_res.py:
    it reads trec_eval's `measure qid value` lines into a table keyed by
    query and measure, and writes one tab-separated row of eleven measures
    for each of the queries 1 to 100 and for the summary query `all`.
    Turning a token into a float and a float back into text are
    parameters. */
module EvalTable {
  import opened Seqs
  import opened Text

  /** The value of a measure for a query (`qid2evals[qid][measure]`). */
  type Evals = map<(string, string), real>

  /** What one input line is: nothing, a value, or a line the script dies
      on (fewer than three tokens, or a third token that is not a float). */
  datatype Line = Blank | Value(qid: string, measure: string, value: real) | Bad

  /** One line: blank when it has no token; a value when it has at least
      three and the third is a float, token 0 naming the measure and token 1
      the query; bad otherwise. */
  function ParseLine(line: string, toFloat: string -> Option<real>): (l: Line)
    ensures l.Blank? <==> Words(line) == []
    ensures l.Value? <==> |Words(line)| >= 3 && toFloat(Words(line)[2]).Some?
    ensures l.Value? ==> l.measure == Words(line)[0] && l.qid == Words(line)[1]
                         && toFloat(Words(line)[2]) == Some(l.value)
  {
    var segs := Words(Strip(line));
    StripWords(line);
    if |segs| == 0 then Blank
    else if |segs| < 3 then Bad
    else match toFloat(segs[2])
      case None => Bad
      case Some(v) => Value(segs[1], segs[0], v)
  }

  /** Every line, read on its own. */
  function Parsed(lines: seq<string>, toFloat: string -> Option<real>): (ls: seq<Line>)
    ensures |ls| == |lines|
    ensures forall i :: 0 <= i < |lines| ==> ls[i] == ParseLine(lines[i], toFloat)
  {
    seq(|lines|, i requires 0 <= i < |lines| => ParseLine(lines[i], toFloat))
  }

  /** Going through the read lines in order: every value line sets its
      entry, later lines overwriting earlier ones; a bad line stops the
      script. */
  function Read(ls: seq<Line>): Option<Evals>
    decreases |ls|
  {
    if |ls| == 0 then Some(map[])
    else
      match Read(ls[..|ls| - 1])
      case None => None
      case Some(evals) =>
        match ls[|ls| - 1]
        case Blank => Some(evals)
        case Bad => None
        case Value(qid, measure, v) => Some(evals[(qid, measure) := v])
  }

  /** Reading the whole file. */
  function Parse(lines: seq<string>, toFloat: string -> Option<real>): Option<Evals> {
    Read(Parsed(lines, toFloat))
  }

  /** The entry a line sets, if any. */
  function Entry(l: Line): Option<((string, string), real)> {
    if l.Value? then Some(((l.qid, l.measure), l.value)) else None
  }

  /** Reading fails exactly when some line is bad; otherwise the table holds,
      for each (query, measure), the value of the last line that names it. */
  lemma {:induction false} ReadIsCollect(ls: seq<Line>)
    ensures Read(ls).None? <==> Bad in ls
    ensures Read(ls).Some? ==> Read(ls).value == Collect(ls, Entry)
    decreases |ls|
  {
    if |ls| > 0 {
      var n := |ls| - 1;
      ReadIsCollect(ls[..n]);
      assert ls == ls[..n] + [ls[n]];
    }
  }

  /** `qid2evals[qid][measure]`: 0.0 when the file never named the pair. */
  function Lookup(evals: Evals, qid: string, measure: string): real {
    if (qid, measure) in evals then evals[(qid, measure)] else 0.0
  }

  /** The column titles of the output. */
  const Header: seq<string> := ["qid", "map@5", "map@10", "map@15", "map@20", "ndcg@5", "ndcg@10",
                                "ndcg@15", "ndcg@20", "success@1", "success@5", "success@10"]

  /** The trec_eval measures behind columns 2 to 12, in column order. */
  const Measures: seq<string> := ["map_cut_5", "map_cut_10", "map_cut_15", "map_cut_20",
                                  "ndcg_cut_5", "ndcg_cut_10", "ndcg_cut_15", "ndcg_cut_20",
                                  "success_1", "success_5", "success_10"]

  /** The queries of the output, in order: "1" to "100", then "all". */
  function Queries(): (qs: seq<string>)
    ensures |qs| == 101
  {
    seq(100, i requires 0 <= i < 100 => NatToString(i + 1)) + ["all"]
  }

  /** Every row is for a different query: the hundred numbers have
      different decimal forms, and "all" is not a number. */
  lemma QueriesDistinct()
    ensures forall i :: 0 <= i < 100 ==> Queries()[i] == NatToString(i + 1)
    ensures Queries()[100] == "all"
    ensures Distinct(Queries())
  {
    var qs := Queries();
    forall i, j | 0 <= i < j < |qs| ensures qs[i] != qs[j] {
      if j < 100 {
        if qs[i] == qs[j] {
          NatToStringInjective(i + 1, j + 1);
        }
      } else {
        assert !IsDigit(qs[j][0]);
        assert IsDigit(NatToString(i + 1)[0]);
      }
    }
  }

  /** The fields of the row of `qid`: the query, then the eleven values. */
  function Row(evals: Evals, qid: string, show: real -> string): seq<string> {
    [qid] + seq(|Measures|, k requires 0 <= k < |Measures| => show(Lookup(evals, qid, Measures[k])))
  }

  /** The output lines: the header, then one row per query. */
  function Table(evals: Evals, show: real -> string): seq<string> {
    [Join(Header, "\t")]
    + seq(|Queries()|, i requires 0 <= i < |Queries()| => Join(Row(evals, Queries()[i], show), "\t"))
  }

  /** No value is written with a tab in it. */
  ghost predicate NoTabs(show: real -> string) {
    forall v :: '\t' !in Shown(show, v)
  }

  function Shown(show: real -> string, v: real): string {
    show(v)
  }

  /** The header line splits back into the column titles. */
  lemma HeaderSplits()
    ensures SplitOn(Join(Header, "\t"), '\t') == Header
  {
    SplitOnJoin(Header, '\t');
  }

  lemma QueryHasNoTab(i: nat)
    requires i < 101
    ensures '\t' !in Queries()[i]
  {
    if i < 100 {
      var qid := NatToString(i + 1);
      assert Queries()[i] == qid;
      assert forall j :: 0 <= j < |qid| ==> qid[j] != '\t';
    }
  }

  /** A row splits back into its fields when neither the query nor any
      value is written with a tab. */
  lemma RowSplits(evals: Evals, qid: string, show: real -> string)
    requires '\t' !in qid && NoTabs(show)
    ensures SplitOn(Join(Row(evals, qid, show), "\t"), '\t') == Row(evals, qid, show)
  {
    var row := Row(evals, qid, show);
    forall k | 0 <= k < |row| ensures '\t' !in row[k] {
      if k > 0 {
        assert row[k] == Shown(show, Lookup(evals, qid, Measures[k - 1]));
      }
    }
    SplitOnJoin(row, '\t');
  }

  /** The output has the header and 101 rows; as long as no value is
      written with a tab, the row of the `i`-th query splits on tabs into
      exactly twelve fields: the query, then the eleven measures in header
      order. */
  lemma TableRows(evals: Evals, show: real -> string, i: nat)
    requires i < 101
    requires NoTabs(show)
    ensures |Table(evals, show)| == 102
    ensures SplitOn(Table(evals, show)[0], '\t') == Header
    ensures |SplitOn(Table(evals, show)[i + 1], '\t')| == 12
    ensures SplitOn(Table(evals, show)[i + 1], '\t')[0] == Queries()[i]
    ensures forall k :: 0 <= k < 11 ==>
              SplitOn(Table(evals, show)[i + 1], '\t')[k + 1] == show(Lookup(evals, Queries()[i], Measures[k]))
  {
    assert SplitOn(Table(evals, show)[0], '\t') == Header by {
      HeaderSplits();
    }
    assert SplitOn(Table(evals, show)[i + 1], '\t') == Row(evals, Queries()[i], show) by {
      QueryHasNoTab(i);
      RowSplits(evals, Queries()[i], show);
    }
  }

  /** A cell whose (query, measure) pair no line of the file names shows
      0.0; otherwise it shows the value of the last line naming it. */
  lemma CellValue(lines: seq<string>, toFloat: string -> Option<real>, qid: string, measure: string)
    requires Parse(lines, toFloat).Some?
    ensures (forall i: nat :: !Gives(Parsed(lines, toFloat), Entry, i, (qid, measure)))
            ==> Lookup(Parse(lines, toFloat).value, qid, measure) == 0.0
    ensures forall i: nat :: Gives(Parsed(lines, toFloat), Entry, i, (qid, measure))
                             && (forall j :: i < j < |lines| ==> !Gives(Parsed(lines, toFloat), Entry, j, (qid, measure)))
                             ==> Lookup(Parse(lines, toFloat).value, qid, measure) == ParseLine(lines[i], toFloat).value
  {
    var ls := Parsed(lines, toFloat);
    ReadIsCollect(ls);
    CollectKeys(ls, Entry, (qid, measure));
    forall i: nat | Gives(ls, Entry, i, (qid, measure))
                    && (forall j :: i < j < |lines| ==> !Gives(ls, Entry, j, (qid, measure)))
      ensures Lookup(Parse(lines, toFloat).value, qid, measure) == ParseLine(lines[i], toFloat).value
    {
      CollectLastWins(ls, Entry, i, (qid, measure));
    }
  }
}
