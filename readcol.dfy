/** The column reader `readcol` of analysis_tools/io/readcol.py.

    A file is read line by line. Each line is cut into fields; a line with no
    field, or whose first field starts with the comment character, is passed
    over and does not count as a row. Counted rows are numbered from 0; the row
    numbered `headerstart` names the columns (when it differs from
    `datastart`), the row numbered `datastart` starts the data (and, when it
    equals `headerstart`, names the columns "0", "1", ... itself), and every
    row from `datastart` on adds its k-th field to column k. */
module ReadCol {
  import opened Text
  import opened Files

  /** The parameters of `readcol`. `delimiter` is the regular-expression text. */
  datatype Config = Config(headerstart: int, datastart: int, comment: string, delimiter: string)

  const WhitespaceDelimiter: string := "\\s+"

  /** headerstart=0, datastart=1, comment=' ', delimiter="\s+". */
  const Defaults: Config := Config(0, 1, " ", WhitespaceDelimiter)

  /** The characters that separate fields: whitespace for the default
      delimiter; otherwise the delimiter's characters, whitespace and '+'. */
  function Separators(delimiter: string): set<char>
  {
    if delimiter == WhitespaceDelimiter then Whitespace
    else (set i | 0 <= i < |delimiter| :: delimiter[i]) + Whitespace + {'+'}
  }

  /** The exceptions the reader lets escape: NameError on `ncols` when a data
      row comes before any column count, IndexError on a header row that held
      nothing but "#". */
  datatype Fault = NcolsUnbound | HeaderIndexError

  /** The reader's state between lines: the row counter, the column count once
      fixed, the header and the columns. */
  datatype Scan =
    | Scanning(row: int, ncols: Option<nat>, header: seq<string>, cols: seq<seq<string>>)
    | Failed(fault: Fault)

  /** What `readcol` returns, or the exception it raises. */
  datatype ReadResult = Table(header: seq<string>, cols: seq<seq<string>>) | Raised(fault: Fault)

  const Start: Scan := Scanning(0, None, [], [])

  /** A blank line, or one whose first field's first character is the comment string. */
  predicate Skipped(toks: seq<string>, comment: string)
  {
    toks == [] || (toks[0] != "" && [toks[0][0]] == comment)
  }

  /** The names on the header row: a lone leading "#" field is dropped, then a
      "#" glued to the first name is cut off. None when nothing is left. */
  function HeaderNames(toks: seq<string>): Option<seq<string>>
    requires toks != []
  {
    var names := if toks[0] == "#" then toks[1..] else toks;
    if names == [] then None
    else if StartsWith(names[0], "#") then Some([names[0][1..]] + names[1..])
    else Some(names)
  }

  /** "0" to "n-1". */
  function Indices(n: nat): (r: seq<string>)
    ensures |r| == n
  {
    seq(n, i requires 0 <= i => NatToString(i))
  }

  function Empties(n: nat): (r: seq<seq<string>>)
    ensures |r| == n && forall j :: 0 <= j < n ==> r[j] == []
  {
    seq(n, j => [])
  }

  /** Field k goes to the end of column k, for every k below both counts. */
  function AppendRow(cols: seq<seq<string>>, items: seq<string>): (r: seq<seq<string>>)
    ensures |r| == |cols|
    ensures forall j :: 0 <= j < |cols| && j < |items| ==> r[j] == cols[j] + [items[j]]
    ensures forall j :: |items| <= j < |cols| ==> r[j] == cols[j]
  {
    seq(|cols|, j requires 0 <= j < |cols| => if j < |items| then cols[j] + [items[j]] else cols[j])
  }

  /** The data branch and the row count's increment that follows it. */
  function Data(st: Scan, items: seq<string>, cfg: Config): Scan
    requires st.Scanning?
  {
    if st.row >= cfg.datastart then
      if st.ncols.None? then Failed(NcolsUnbound)
      else st.(row := st.row + 1, cols := AppendRow(st.cols, items))
    else st.(row := st.row + 1)
  }

  /** A counted row: the header or the no-header branch, then the data branch.
      On the header row the data branch sees the header list itself, since
      the source binds the header to the same list as the row's fields. */
  function Counted(st: Scan, toks: seq<string>, cfg: Config): Scan
    requires st.Scanning? && toks != []
  {
    if st.row == cfg.headerstart && cfg.headerstart != cfg.datastart then
      match HeaderNames(toks)
      case None => Failed(HeaderIndexError)
      case Some(h) => Data(Scanning(st.row, Some(|h|), h, Empties(|h|)), h, cfg)
    else if st.row == cfg.datastart && cfg.datastart == cfg.headerstart then
      Data(Scanning(st.row, Some(|toks|), Indices(|toks|), Empties(|toks|)), toks, cfg)
    else
      Data(st, toks, cfg)
  }

  function Step(st: Scan, line: string, cfg: Config): Scan
  {
    if st.Failed? then st
    else
      var toks := Tokens(line, Separators(cfg.delimiter));
      if Skipped(toks, cfg.comment) then st else Counted(st, toks, cfg)
  }

  function Run(st: Scan, lines: seq<string>, cfg: Config): Scan
    decreases |lines|
  {
    if lines == [] then st else Run(Step(st, lines[0], cfg), lines[1..], cfg)
  }

  function Finish(st: Scan): ReadResult
  {
    match st
    case Failed(fault) => Raised(fault)
    case Scanning(_, _, header, cols) => if cols == [] then Table([], []) else Table(header, cols)
  }

  /** The state invariant: no columns and no header before the column count is
      fixed, and afterwards one name and one column per counted column. */
  ghost predicate Wf(st: Scan)
  {
    st.Scanning? ==>
      (st.ncols.None? ==> st.header == [] && st.cols == []) &&
      (st.ncols.Some? ==> |st.header| == |st.cols| == st.ncols.value && st.ncols.value >= 1)
  }

  /** What `readcol` returns for a file, missing or present, with the given parameters. */
  function ReadSpec(present: bool, content: string, cfg: Config): (r: ReadResult)
    ensures r.Table? ==> |r.header| == |r.cols|
    ensures r.Table? ==> (r.header == [] <==> r.cols == [])
  {
    if !present then Table([], [])
    else
      var st := Run(Start, Lines(content), cfg);
      RunWf(Start, Lines(content), cfg);
      Finish(st)
  }

  // ---------------------------------------------------------------------------
  // The fold

  /** Running over `a + b` is running over `a`, then over `b`;
      the same law the older reader and the line counter state for their own `Step`. */
  lemma {:induction false} RunConcat(st: Scan, a: seq<string>, b: seq<string>, cfg: Config)
    ensures Run(st, a + b, cfg) == Run(Run(st, a, cfg), b, cfg)
    decreases |a|
  {
    if a == [] {
      assert a + b == b;
    } else {
      assert (a + b)[1..] == a[1..] + b;
      RunConcat(Step(st, a[0], cfg), a[1..], b, cfg);
    }
  }

  lemma RunSnoc(lines: seq<string>, i: nat, cfg: Config)
    requires i < |lines|
    ensures Run(Start, lines[..i + 1], cfg) == Step(Run(Start, lines[..i], cfg), lines[i], cfg)
  {
    assert lines[..i + 1] == lines[..i] + [lines[i]];
    RunConcat(Start, lines[..i], [lines[i]], cfg);
  }

  /** Once an exception is raised, no later line matters. */
  lemma {:induction false} RunFailed(st: Scan, lines: seq<string>, cfg: Config)
    requires st.Failed?
    ensures Run(st, lines, cfg) == st
    decreases |lines|
  {
    if lines != [] {
      RunFailed(st, lines[1..], cfg);
    }
  }

  lemma StepWf(st: Scan, line: string, cfg: Config)
    requires Wf(st)
    ensures Wf(Step(st, line, cfg))
  {
  }

  /** Every state the reader reaches keeps `|header| == |cols| == ncols`. */
  lemma {:induction false} RunWf(st: Scan, lines: seq<string>, cfg: Config)
    requires Wf(st)
    ensures Wf(Run(st, lines, cfg))
    decreases |lines|
  {
    if lines != [] {
      StepWf(st, lines[0], cfg);
      RunWf(Step(st, lines[0], cfg), lines[1..], cfg);
    }
  }

  // ---------------------------------------------------------------------------
  // Properties of the classification

  /** The fields of a line under the configured delimiter. */
  function Fields(line: string, cfg: Config): seq<string>
  {
    Tokens(line, Separators(cfg.delimiter))
  }

  /** The fields of the counted lines, in order. */
  function Rows(lines: seq<string>, cfg: Config): (r: seq<seq<string>>)
    ensures |r| <= |lines|
    ensures forall i :: 0 <= i < |r| ==> r[i] != []
  {
    if lines == [] then []
    else if Skipped(Fields(lines[0], cfg), cfg.comment) then Rows(lines[1..], cfg)
    else [Fields(lines[0], cfg)] + Rows(lines[1..], cfg)
  }

  /** The j-th field of every row that has one. */
  function Column(rows: seq<seq<string>>, j: nat): (c: seq<string>)
    ensures |c| <= |rows|
  {
    if rows == [] then []
    else (if j < |rows[0]| then [rows[0][j]] else []) + Column(rows[1..], j)
  }

  /** Of rows that all have more than j fields, column j has one entry per row. */
  lemma {:induction false} ColumnOfFullRows(rows: seq<seq<string>>, j: nat)
    requires forall i :: 0 <= i < |rows| ==> j < |rows[i]|
    ensures Column(rows, j) == seq(|rows|, i requires 0 <= i < |rows| => rows[i][j])
  {
    if rows != [] {
      ColumnOfFullRows(rows[1..], j);
    }
  }

  lemma {:induction false} ColumnConcat(a: seq<seq<string>>, b: seq<seq<string>>, j: nat)
    ensures Column(a + b, j) == Column(a, j) + Column(b, j)
  {
    if a == [] {
      assert a + b == b;
    } else {
      assert (a + b)[1..] == a[1..] + b;
      ColumnConcat(a[1..], b, j);
    }
  }

  /** A blank or comment line changes nothing, wherever it stands: it adds no
      header, no data and no row to the count. */
  lemma SkippedLineInvisible(st: Scan, a: seq<string>, line: string, b: seq<string>, cfg: Config)
    requires Skipped(Fields(line, cfg), cfg.comment)
    ensures Run(st, a + [line] + b, cfg) == Run(st, a + b, cfg)
  {
    assert a + [line] + b == a + ([line] + b);
    RunConcat(st, a, [line] + b, cfg);
    RunConcat(st, a, b, cfg);
    assert ([line] + b)[1..] == b;
  }

  /** Rows before the header row, and rows between the header row and the data
      row, only advance the row count. */
  lemma {:induction false} PassOver(st: Scan, lines: seq<string>, cfg: Config)
    requires st.Scanning?
    requires st.row + |Rows(lines, cfg)| <= cfg.datastart
    requires cfg.headerstart < st.row || st.row + |Rows(lines, cfg)| <= cfg.headerstart
    ensures Run(st, lines, cfg) == st.(row := st.row + |Rows(lines, cfg)|)
    decreases |lines|
  {
    if lines != [] {
      PassOver(Step(st, lines[0], cfg), lines[1..], cfg);
    }
  }

  /** Column j of `cols` followed by field j of every row. */
  function Extended(cols: seq<seq<string>>, rows: seq<seq<string>>): (r: seq<seq<string>>)
    ensures |r| == |cols| && forall j :: 0 <= j < |cols| ==> r[j] == cols[j] + Column(rows, j)
  {
    seq(|cols|, j requires 0 <= j < |cols| => cols[j] + Column(rows, j))
  }

  /** Appending a row and then extending by the rest is extending by all of them. */
  lemma ExtendedStep(cols: seq<seq<string>>, toks: seq<string>, rest: seq<seq<string>>)
    ensures Extended(AppendRow(cols, toks), rest) == Extended(cols, [toks] + rest)
  {
    var next := AppendRow(cols, toks);
    assert ([toks] + rest)[1..] == rest;
    forall j | 0 <= j < |cols|
      ensures next[j] + Column(rest, j) == cols[j] + Column([toks] + rest, j)
    {
      if j < |toks| {
        assert next[j] == cols[j] + [toks[j]];
      } else {
        assert next[j] == cols[j];
      }
    }
  }

  /** Extending by no rows changes nothing. */
  lemma ExtendedByNothing(cols: seq<seq<string>>)
    ensures Extended(cols, []) == cols
  {
    forall j | 0 <= j < |cols| ensures Extended(cols, [])[j] == cols[j] {
      assert Column([], j) == [];
    }
  }

  /** Once the columns exist, every counted row adds its k-th field to column k
      for k below both counts: extra fields are dropped, a short row leaves the
      later columns shorter. */
  lemma {:induction false} DataRows(st: Scan, lines: seq<string>, cfg: Config)
    requires st.Scanning? && st.ncols.Some? && |st.cols| == st.ncols.value
    requires st.row >= cfg.datastart && st.row > cfg.headerstart
    ensures Run(st, lines, cfg) == st.(row := st.row + |Rows(lines, cfg)|, cols := Extended(st.cols, Rows(lines, cfg)))
    decreases |lines|
  {
    if lines == [] {
      ExtendedByNothing(st.cols);
    } else {
      var next := Step(st, lines[0], cfg);
      DataRows(next, lines[1..], cfg);
      var toks := Fields(lines[0], cfg);
      var rest := Rows(lines[1..], cfg);
      if Skipped(toks, cfg.comment) {
        assert next == st;
        assert Rows(lines, cfg) == rest;
      } else {
        assert next == st.(row := st.row + 1, cols := AppendRow(st.cols, toks));
        assert Rows(lines, cfg) == [toks] + rest;
        ExtendedStep(st.cols, toks, rest);
      }
    }
  }

  /** A header row holding a lone "#" field and then the names. */
  lemma LoneHashHeader(st: Scan, line: string, names: seq<string>, cfg: Config)
    requires st.Scanning? && st.row == cfg.headerstart < cfg.datastart && cfg.comment != "#"
    requires Fields(line, cfg) == ["#"] + names && names != [] && !StartsWith(names[0], "#")
    ensures Step(st, line, cfg) == Scanning(st.row + 1, Some(|names|), names, Empties(|names|))
  {
    assert (["#"] + names)[1..] == names;
  }

  /** A header row whose first name carries a glued "#": exactly one '#' is cut off. */
  lemma GluedHashHeader(st: Scan, line: string, first: string, rest: seq<string>, cfg: Config)
    requires st.Scanning? && st.row == cfg.headerstart < cfg.datastart && cfg.comment != "#"
    requires first != "" && Fields(line, cfg) == ["#" + first] + rest
    ensures Step(st, line, cfg) == Scanning(st.row + 1, Some(1 + |rest|), [first] + rest, Empties(1 + |rest|))
  {
    var toks := ["#" + first] + rest;
    assert toks[0] != "#" by { assert |toks[0]| > 1; }
    assert StartsWith(toks[0], "#");
    assert toks[0][1..] == first;
    assert [toks[0][1..]] + toks[1..] == [first] + rest;
  }

  /** The header row fixes the column count and starts one empty column per name. */
  lemma HeaderStep(st: Scan, line: string, header: seq<string>, cfg: Config)
    requires st.Scanning? && st.row == cfg.headerstart < cfg.datastart
    requires !Skipped(Fields(line, cfg), cfg.comment)
    requires HeaderNames(Fields(line, cfg)) == Some(header)
    ensures Step(st, line, cfg) == Scanning(st.row + 1, Some(|header|), header, Empties(|header|))
  {
  }

  /** A header row with nothing but "#" raises IndexError. */
  lemma HashOnlyHeader(st: Scan, line: string, cfg: Config)
    requires st.Scanning? && st.row == cfg.headerstart && cfg.headerstart != cfg.datastart
    requires cfg.comment != "#" && Fields(line, cfg) == ["#"]
    ensures Step(st, line, cfg) == Failed(HeaderIndexError)
  {
  }

  /** Without a header the first data row names the columns "0".."n-1" and is
      also the first row of data. */
  lemma NoHeaderRow(st: Scan, line: string, cfg: Config)
    requires st.Scanning? && st.row == cfg.datastart == cfg.headerstart
    requires !Skipped(Fields(line, cfg), cfg.comment)
    ensures var toks := Fields(line, cfg);
      Step(st, line, cfg) ==
        Scanning(st.row + 1, Some(|toks|), Indices(|toks|),
                 seq(|toks|, j requires 0 <= j < |toks| => [toks[j]]))
  {
    var toks := Fields(line, cfg);
    var n := |toks|;
    forall j | 0 <= j < n ensures AppendRow(Empties(n), toks)[j] == [toks[j]] {
      assert Empties(n)[j] + [toks[j]] == [toks[j]];
    }
    assert AppendRow(Empties(n), toks) == seq(n, j requires 0 <= j < n => [toks[j]]);
  }

  /** A data row before any column count raises NameError. */
  lemma DataBeforeColumns(st: Scan, line: string, cfg: Config)
    requires st.Scanning? && st.ncols.None? && st.row >= cfg.datastart && st.row != cfg.headerstart
    requires !Skipped(Fields(line, cfg), cfg.comment)
    ensures Step(st, line, cfg) == Failed(NcolsUnbound)
  {
  }

  /** With headerstart < datastart: `headerstart` counted rows of preamble, the
      header row, the rows up to `datastart`, then rows of data. The header is
      the header row's names and column j holds the j-th fields of the data rows. */
  lemma ReadsHeaderAndRows(cfg: Config, pre: seq<string>, hline: string, gap: seq<string>,
                           body: seq<string>, header: seq<string>)
    requires 0 <= cfg.headerstart < cfg.datastart
    requires |Rows(pre, cfg)| == cfg.headerstart
    requires |Rows(gap, cfg)| == cfg.datastart - cfg.headerstart - 1
    requires !Skipped(Fields(hline, cfg), cfg.comment)
    requires HeaderNames(Fields(hline, cfg)) == Some(header)
    ensures Finish(Run(Start, pre + [hline] + gap + body, cfg)) ==
      Table(header, seq(|header|, j requires 0 <= j < |header| => Column(Rows(body, cfg), j)))
  {
    var s3 := Scanning(cfg.datastart, Some(|header|), header, Empties(|header|));
    ThroughHeader(cfg, pre, hline, gap, header);
    DataRows(s3, body, cfg);
    var cols := seq(|header|, j requires 0 <= j < |header| => Column(Rows(body, cfg), j));
    forall j | 0 <= j < |header| ensures Extended(s3.cols, Rows(body, cfg))[j] == cols[j] {
      assert s3.cols[j] == [];
    }
    assert Extended(s3.cols, Rows(body, cfg)) == cols;
    RunConcat(Start, pre + [hline] + gap, body, cfg);
    assert cols != [] by { assert |cols| == |header| && header != []; }
  }

  /** The preamble, the header row and the rows up to `datastart` leave the
      header's names and one empty column per name. */
  lemma ThroughHeader(cfg: Config, pre: seq<string>, hline: string, gap: seq<string>, header: seq<string>)
    requires 0 <= cfg.headerstart < cfg.datastart
    requires |Rows(pre, cfg)| == cfg.headerstart
    requires |Rows(gap, cfg)| == cfg.datastart - cfg.headerstart - 1
    requires !Skipped(Fields(hline, cfg), cfg.comment)
    requires HeaderNames(Fields(hline, cfg)) == Some(header)
    ensures Run(Start, pre + [hline] + gap, cfg) == Scanning(cfg.datastart, Some(|header|), header, Empties(|header|))
  {
    PassOver(Start, pre, cfg);
    var s1 := Run(Start, pre, cfg);
    assert s1 == Scanning(cfg.headerstart, None, [], []);
    HeaderStep(s1, hline, header, cfg);
    var s2 := Step(s1, hline, cfg);
    PassOver(s2, gap, cfg);
    assert Run(Start, pre + [hline], cfg) == s2 by {
      RunConcat(Start, pre, [hline], cfg);
    }
    RunConcat(Start, pre + [hline], gap, cfg);
  }

  /** With headerstart == datastart: the first data row names the columns by
      number and every row from it on is data. */
  lemma ReadsWithoutHeader(cfg: Config, pre: seq<string>, first: string, body: seq<string>)
    requires 0 <= cfg.headerstart == cfg.datastart
    requires |Rows(pre, cfg)| == cfg.datastart
    requires !Skipped(Fields(first, cfg), cfg.comment)
    ensures var n := |Fields(first, cfg)|;
      Finish(Run(Start, pre + [first] + body, cfg)) ==
        Table(Indices(n), seq(n, j requires 0 <= j < n => Column([Fields(first, cfg)] + Rows(body, cfg), j)))
  {
    var toks := Fields(first, cfg);
    var n := |toks|;
    var s2 := Run(Start, pre + [first], cfg);
    UpToFirstRow(cfg, pre, first);
    DataRows(s2, body, cfg);
    RunConcat(Start, pre + [first], body, cfg);
    var cols := seq(n, j requires 0 <= j < n => Column([toks] + Rows(body, cfg), j));
    forall j | 0 <= j < n ensures Extended(s2.cols, Rows(body, cfg))[j] == cols[j] {
      ColumnConcat([toks], Rows(body, cfg), j);
    }
    assert Extended(s2.cols, Rows(body, cfg)) == cols;
    assert cols != [] by { assert toks != [] && |cols| == n; }
  }

  /** The preamble and the first data row leave numbered names and one
      single-entry column per field. */
  lemma UpToFirstRow(cfg: Config, pre: seq<string>, first: string)
    requires 0 <= cfg.headerstart == cfg.datastart
    requires |Rows(pre, cfg)| == cfg.datastart
    requires !Skipped(Fields(first, cfg), cfg.comment)
    ensures var toks := Fields(first, cfg);
      Run(Start, pre + [first], cfg) ==
        Scanning(cfg.datastart + 1, Some(|toks|), Indices(|toks|),
                 seq(|toks|, j requires 0 <= j < |toks| => [toks[j]]))
  {
    PassOver(Start, pre, cfg);
    var s1 := Run(Start, pre, cfg);
    NoHeaderRow(s1, first, cfg);
    RunConcat(Start, pre, [first], cfg);
  }

  lemma {:induction false} NoRowsNoChange(st: Scan, lines: seq<string>, cfg: Config)
    requires Rows(lines, cfg) == []
    ensures Run(st, lines, cfg) == st
    decreases |lines|
  {
    if lines != [] {
      NoRowsNoChange(st, lines[1..], cfg);
    }
  }

  /** A file whose lines are all blank or comments, like an empty file or a
      missing one, reads as ([], []). */
  lemma NothingToRead(present: bool, content: string, cfg: Config)
    requires !present || Rows(Lines(content), cfg) == []
    ensures ReadSpec(present, content, cfg) == Table([], [])
  {
    if present {
      NoRowsNoChange(Start, Lines(content), cfg);
    }
  }

  // ---------------------------------------------------------------------------
  // The reader as the source writes it

  /** Appends field k to column k for k below both the field count and `ncols`
      (the source's `zip(linestrip, range(ncols))`). */
  method AppendFields(cols0: seq<seq<string>>, items: seq<string>, ncols: nat) returns (cols: seq<seq<string>>)
    requires |cols0| == ncols
    ensures cols == AppendRow(cols0, items)
  {
    cols := cols0;
    var k := 0;
    while k < |items| && k < ncols
      invariant 0 <= k <= ncols && k <= |items|
      invariant |cols| == ncols
      invariant forall j :: 0 <= j < ncols ==> cols[j] == if j < k then cols0[j] + [items[j]] else cols0[j]
    {
      cols := cols[k := cols[k] + [items[k]]];
      k := k + 1;
    }
  }

  /** One counted row: the header branch, the no-header branch and the data
      branch, on the reader's local variables. `fault` is set when the row
      raises, and the other results are then of no use. */
  method CountedRow(rowCount: int, bound: bool, ncols: nat, header: seq<string>, cols: seq<seq<string>>,
                    toks: seq<string>, cfg: Config)
    returns (fault: Option<Fault>, rowCount': int, bound': bool, ncols': nat, header': seq<string>, cols': seq<seq<string>>)
    requires toks != [] && forall k :: 0 <= k < |toks| ==> toks[k] != ""
    requires bound ==> |cols| == ncols
    ensures fault.Some? ==>
      Counted(Scanning(rowCount, if bound then Some(ncols) else None, header, cols), toks, cfg) == Failed(fault.value)
    ensures fault.None? ==>
      Counted(Scanning(rowCount, if bound then Some(ncols) else None, header, cols), toks, cfg) ==
      Scanning(rowCount', if bound' then Some(ncols') else None, header', cols')
    ensures fault.None? && bound' ==> |cols'| == ncols'
  {
    rowCount', bound', ncols', header', cols' := rowCount, bound, ncols, header, cols;
    var line := toks;
    var items := line;
    if rowCount == cfg.headerstart && cfg.headerstart != cfg.datastart {
      if line[0] == "#" {
        ncols' := |line| - 1;
        line := line[1..];
      } else {
        ncols' := |line|;
      }
      bound' := true;
      header' := line;
      cols' := Empties(ncols');
      if header' == [] {
        return Some(HeaderIndexError), rowCount', bound', ncols', header', cols';
      }
      if header'[0][0] == '#' {
        header' := header'[0 := header'[0][1..]];
      }
      assert StartsWith(line[0], "#") == (line[0][0] == '#');
      items := header';
    } else if rowCount == cfg.datastart && cfg.datastart == cfg.headerstart {
      ncols' := |line|;
      bound' := true;
      header' := Indices(ncols');
      cols' := Empties(ncols');
    }
    if rowCount >= cfg.datastart && items != [] {
      if !bound' {
        return Some(NcolsUnbound), rowCount', bound', ncols', header', cols';
      }
      cols' := AppendFields(cols', items, ncols');
    }
    rowCount' := rowCount' + 1;
    fault := None;
  }

  method ReadCol(f: TextFile, cfg: Config) returns (r: ReadResult)
    ensures r == ReadSpec(f.present, f.content, cfg)
  {
    if !f.present {
      return Table([], []);
    }
    var lines := Lines(f.content);
    var seps := Separators(cfg.delimiter);
    var cols: seq<seq<string>> := [];
    var header: seq<string> := [];
    var rowCount: int := 0;
    var ncols: nat := 0;
    var bound := false;
    var i := 0;
    while i < |lines|
      invariant 0 <= i <= |lines|
      invariant Run(Start, lines[..i], cfg) ==
        Scanning(rowCount, if bound then Some(ncols) else None, header, cols)
      invariant bound ==> |cols| == ncols
    {
      RunSnoc(lines, i, cfg);
      var pieces := Split(lines[i], seps);
      var toks := RemoveEmpty(pieces);
      if toks != [] && [toks[0][0]] != cfg.comment {
        var fault;
        fault, rowCount, bound, ncols, header, cols := CountedRow(rowCount, bound, ncols, header, cols, toks, cfg);
        if fault.Some? {
          RunFailed(Failed(fault.value), lines[i + 1..], cfg);
          RunConcat(Start, lines[..i + 1], lines[i + 1..], cfg);
          assert lines[..i + 1] + lines[i + 1..] == lines;
          return Raised(fault.value);
        }
      }
      i := i + 1;
    }
    assert lines[..i] == lines;
    if cols == [] {
      return Table([], []);
    }
    return Table(header, cols);
  }
}
