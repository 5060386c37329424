/** The older reader and writer of muttontools/better_file_writer.py.

    The reader counts every physical line, blank ones included; the line at
    index `datastart-1` is the header and every other line is data. It always
    splits on whitespace, ignores its `comment` and `deliminator` parameters,
    strips no "#" glued to a name and returns `(cols, header)`. There is no
    exception handling, so a missing file, a blank header line, a data line
    before the header and a file without a header line all end in an exception.

    The writer makes none of the io writer's checks. */
module BetterFileWriter {
  import opened Text
  import opened Files
  import R = ReadCol
  import W = WriteCol
  import RT = RoundTrip

  /** IOError at `open`; IndexError at `linestrip[0]` on a blank header line;
      NameError at `ncols` for a line before the header; NameError at
      `print(header)` when no header line was reached. */
  datatype Fault = FileMissing | BlankHeader | NcolsUnbound | HeaderUnbound

  /** The loop's state: the line counter, the header once read (its length is
      `ncols`) and the columns. */
  datatype Scan =
    | Scanning(i: int, header: Option<seq<string>>, cols: seq<seq<string>>)
    | Failed(fault: Fault)

  /** `(cols, header)`, in the source's order, or the exception raised. */
  datatype ReadResult = Columns(cols: seq<seq<string>>, header: seq<string>) | Raised(fault: Fault)

  const Start: Scan := Scanning(0, None, [])

  function Fields(line: string): seq<string>
  {
    Tokens(line, Whitespace)
  }

  /** The header line's names: a lone leading "#" field is dropped, nothing else. */
  function Names(toks: seq<string>): seq<string>
    requires toks != []
  {
    if toks[0] == "#" then toks[1..] else toks
  }

  function Step(st: Scan, line: string, datastart: int): Scan
  {
    match st
    case Failed(_) => st
    case Scanning(i, header, cols) =>
      var toks := Fields(line);
      if i == datastart - 1 then
        if toks == [] then Failed(BlankHeader)
        else Scanning(i + 1, Some(Names(toks)), R.Empties(|Names(toks)|))
      else if header.None? then Failed(NcolsUnbound)
      else Scanning(i + 1, header, R.AppendRow(cols, toks))
  }

  function Run(st: Scan, lines: seq<string>, datastart: int): Scan
    decreases |lines|
  {
    if lines == [] then st else Run(Step(st, lines[0], datastart), lines[1..], datastart)
  }

  function Finish(st: Scan): ReadResult
  {
    match st
    case Failed(fault) => Raised(fault)
    case Scanning(_, header, cols) => if header.None? then Raised(HeaderUnbound) else Columns(cols, header.value)
  }

  function ReadSpec(present: bool, content: string, datastart: int): ReadResult
  {
    if !present then Raised(FileMissing) else Finish(Run(Start, Lines(content), datastart))
  }

  // ---------------------------------------------------------------------------
  // The fold

  /** Running over `a + b` is running over `a`, then over `b`;
      the same law the io reader states for its own `Step`. */
  lemma {:induction false} RunConcat(st: Scan, a: seq<string>, b: seq<string>, datastart: int)
    ensures Run(st, a + b, datastart) == Run(Run(st, a, datastart), b, datastart)
    decreases |a|
  {
    if a == [] {
      assert a + b == b;
    } else {
      assert (a + b)[1..] == a[1..] + b;
      RunConcat(Step(st, a[0], datastart), a[1..], b, datastart);
    }
  }

  /** Once an exception is raised, no later line matters (as for the io reader). */
  lemma {:induction false} RunFailed(st: Scan, lines: seq<string>, datastart: int)
    requires st.Failed?
    ensures Run(st, lines, datastart) == st
    decreases |lines|
  {
    if lines != [] {
      RunFailed(st, lines[1..], datastart);
    }
  }

  /** Past the header, each line, blank or not, gives field k to column k for
      k below the header's length. */
  lemma {:induction false} DataLines(st: Scan, lines: seq<string>, datastart: int)
    requires st.Scanning? && st.header.Some? && |st.cols| == |st.header.value| && st.i >= datastart
    ensures Run(st, lines, datastart) == st.(i := st.i + |lines|, cols := R.Extended(st.cols, FieldsOf(lines)))
    decreases |lines|
  {
    if lines == [] {
      R.ExtendedByNothing(st.cols);
    } else {
      var toks := Fields(lines[0]);
      var next := Step(st, lines[0], datastart);
      assert next == st.(i := st.i + 1, cols := R.AppendRow(st.cols, toks));
      DataLines(next, lines[1..], datastart);
      assert FieldsOf(lines) == [toks] + FieldsOf(lines[1..]);
      R.ExtendedStep(st.cols, toks, FieldsOf(lines[1..]));
    }
  }

  /** The fields of every line, blank ones included. */
  function FieldsOf(lines: seq<string>): (r: seq<seq<string>>)
    ensures |r| == |lines|
  {
    seq(|lines|, k requires 0 <= k < |lines| => Fields(lines[k]))
  }

  // ---------------------------------------------------------------------------
  // Properties

  /** The reader returns columns exactly when the file exists, `datastart` is
      1 and the first line is not blank; the columns then hold, below the
      header's names, the fields of every later line. */
  lemma ReadsOnlyFromFirstLine(present: bool, content: string, datastart: int)
    ensures ReadSpec(present, content, datastart).Columns? <==>
      present && datastart == 1 && Lines(content) != [] && Fields(Lines(content)[0]) != []
    ensures var lines := Lines(content);
      ReadSpec(present, content, datastart).Columns? ==>
        var names := Names(Fields(lines[0]));
        ReadSpec(present, content, datastart) ==
          Columns(seq(|names|, j requires 0 <= j < |names| => R.Column(FieldsOf(lines[1..]), j)), names)
  {
    if present {
      var lines := Lines(content);
      if lines == [] {
      } else {
        var s1 := Step(Start, lines[0], datastart);
        assert Run(Start, lines, datastart) == Run(s1, lines[1..], datastart);
        if s1.Failed? {
          RunFailed(s1, lines[1..], datastart);
        } else {
          var names := Names(Fields(lines[0]));
          var rest := FieldsOf(lines[1..]);
          DataLines(s1, lines[1..], datastart);
          forall j | 0 <= j < |names| ensures R.Extended(s1.cols, rest)[j] == R.Column(rest, j) {
            assert s1.cols[j] == [];
          }
        }
      }
    }
  }

  /** A blank line past the header adds a line to the count and nothing to the columns. */
  lemma BlankLineAddsNothing(st: Scan, line: string, datastart: int)
    requires st.Scanning? && st.header.Some? && st.i != datastart - 1 && Fields(line) == []
    ensures Step(st, line, datastart) == st.(i := st.i + 1)
  {
    assert R.AppendRow(st.cols, []) == st.cols;
  }

  // ---------------------------------------------------------------------------
  // The reader as the source writes it

  method ReadCol(f: TextFile, datastart: int) returns (r: ReadResult)
    ensures r == ReadSpec(f.present, f.content, datastart)
  {
    if !f.present {
      return Raised(FileMissing);
    }
    var lines := Lines(f.content);
    var cols: seq<seq<string>> := [];
    var header: seq<string> := [];
    var hasHeader := false;
    var ncols: nat := 0;
    var i := 0;
    var n := 0;
    while n < |lines|
      invariant 0 <= n <= |lines| && i == n
      invariant Run(Start, lines[..n], datastart) == Scanning(i, if hasHeader then Some(header) else None, cols)
      invariant hasHeader ==> ncols == |header| == |cols|
    {
      assert lines[..n + 1] == lines[..n] + [lines[n]];
      RunConcat(Start, lines[..n], [lines[n]], datastart);
      var pieces := Split(lines[n], Whitespace);
      var linestrip := RemoveEmpty(pieces);
      if i == datastart - 1 {
        if linestrip == [] {
          RunFailed(Failed(BlankHeader), lines[n + 1..], datastart);
          RunConcat(Start, lines[..n + 1], lines[n + 1..], datastart);
          assert lines[..n + 1] + lines[n + 1..] == lines;
          return Raised(BlankHeader);
        }
        if linestrip[0] == "#" {
          ncols := |linestrip| - 1;
          linestrip := linestrip[1..];
        } else {
          ncols := |linestrip|;
        }
        header := linestrip;
        hasHeader := true;
        cols := R.Empties(ncols);
      } else {
        if !hasHeader {
          RunFailed(Failed(NcolsUnbound), lines[n + 1..], datastart);
          RunConcat(Start, lines[..n + 1], lines[n + 1..], datastart);
          assert lines[..n + 1] + lines[n + 1..] == lines;
          return Raised(NcolsUnbound);
        }
        cols := R.AppendFields(cols, linestrip, ncols);
      }
      i := i + 1;
      n := n + 1;
    }
    assert lines[..n] == lines;
    if !hasHeader {
      return Raised(HeaderUnbound);
    }
    return Columns(cols, header);
  }

  // ---------------------------------------------------------------------------
  // The writer

  /** The first `nrows` cells of every column. */
  function Trimmed(data: seq<seq<string>>, nrows: nat): (r: seq<seq<string>>)
    requires forall j :: 0 <= j < |data| ==> nrows <= |data[j]|
    ensures |r| == |data| && forall j :: 0 <= j < |data| ==> r[j] == data[j][..nrows]
  {
    seq(|data|, j requires 0 <= j < |data| => data[j][..nrows])
  }

  /** The names the header loop reaches: the first `ncols` of them. */
  function HeaderCut(header: seq<string>, ncols: nat): (r: seq<string>)
    requires header == [] || |header| >= ncols
    ensures |r| == if header == [] then 0 else ncols
  {
    if header == [] then [] else header[..ncols]
  }

  /** What the unchecked writer writes: the first `ncols` names after the
      starter, then the first `len(data[0])` cells of every column, row by row. */
  function LegacyText(header: seq<string>, data: seq<seq<string>>, cfg: W.Config): string
    requires |data| >= 1 && (forall j :: 0 <= j < |data| ==> |data[0]| <= |data[j]|)
    requires header == [] || |header| >= |data|
  {
    W.HeaderText(HeaderCut(header, |data|), cfg.delimiter, cfg.headerStarter) +
    Body(W.RowsOf(data, |data[0]|), cfg.delimiter)
  }

  /** Opens the file in the given mode, with no existence or shape checks, and
      writes the header line and the rows. The `data[0]`, `header[j]` and
      `data[j][i]` lookups that would raise are excluded by the requires. */
  method WriteCol(f: TextFile, data: seq<seq<string>>, header: seq<string>, cfg: W.Config)
    requires |data| >= 1 && (forall j :: 0 <= j < |data| ==> |data[0]| <= |data[j]|)
    requires header == [] || |header| >= |data|
    modifies f
    ensures f.present
    ensures f.content == (if cfg.mode == Truncate || !old(f.present) then "" else old(f.content)) +
                         LegacyText(header, data, cfg)
  {
    f.Open(cfg.mode);
    var ncols := |data|;
    var nrows := |data[0]|;
    if header != [] {
      var headerline := W.BuildLine(cfg.headerStarter, header[..ncols], cfg.delimiter);
      assert header[..ncols] == HeaderCut(header, ncols);
      f.Write(headerline);
    }
    W.WriteRows(f, data, nrows, cfg.delimiter);
  }

  /** The unchecked writer writes what the io writer would for the header cut
      to `ncols` names and the columns cut to the first column's length. */
  lemma LegacyIsTrimmedSerialize(header: seq<string>, data: seq<seq<string>>, cfg: W.Config)
    requires |data| >= 1 && (forall j :: 0 <= j < |data| ==> |data[0]| <= |data[j]|)
    requires header == [] || |header| >= |data|
    ensures var t := Trimmed(data, |data[0]|);
      W.Rectangular(t) &&
      LegacyText(header, data, cfg) == W.Serialize(HeaderCut(header, |data|), t, cfg)
  {
    var t := Trimmed(data, |data[0]|);
    var n := |data[0]|;
    forall i | 0 <= i < n ensures W.RowOf(t, i) == W.RowOf(data, i) {
    }
    assert W.RowsOf(t, |t[0]|) == W.RowsOf(data, n);
  }

  /** Where the io writer's checks pass and it writes, the unchecked writer
      writes the same text; where the file exists and overwrite is off, the
      io writer leaves it alone but the unchecked writer still writes. */
  lemma AgreesWithCheckedWriter(present: bool, content: string, header: seq<string>,
                                data: seq<seq<string>>, cfg: W.Config)
    requires |data| >= 1 && W.Rectangular(data) && (header == [] || |header| == |data|)
    ensures W.WriteSpec(present, content, data, header, cfg).status == W.Written ==>
      W.WriteSpec(present, content, data, header, cfg).file.content ==
        (if cfg.mode == Truncate || !present then "" else content) + LegacyText(header, data, cfg)
    ensures present && !cfg.overwrite ==>
      W.WriteSpec(present, content, data, header, cfg).file.content == content
  {
    assert HeaderCut(header, |data|) == header;
  }

  // ---------------------------------------------------------------------------
  // Round trip and contrasts with the io reader

  /** A header starter the legacy reader looks past: whitespace, or "#"
      and whitespace; a "#" glued to the first name would stay on it. */
  predicate SpacedStarter(s: string)
  {
    '\n' !in s &&
    (AllSeparators(s, Whitespace) || (|s| > 1 && s[0] == '#' && AllSeparators(s[1..], Whitespace)))
  }

  lemma HeaderLineNames(s: string, header: seq<string>, d: string)
    requires SpacedStarter(s) && RT.Gap(d) && header != [] && RT.Words(header) && header[0] != "#"
    ensures Fields(s + Line(header, d)) != [] && Names(Fields(s + Line(header, d))) == header
  {
    TokensOfLine(header, d, Whitespace);
    if AllSeparators(s, Whitespace) {
      LeadingRun(s, Line(header, d), Whitespace);
    } else {
      var w := s[1..];
      assert s == "#" + w;
      TokensAtRun("#", w, Line(header, d), Whitespace);
      TokensAtom("#", Whitespace);
      assert (["#"] + header)[1..] == header;
    }
  }

  lemma RowLinesFields(rows: seq<seq<string>>, d: string)
    requires RT.Gap(d) && forall i :: 0 <= i < |rows| ==> rows[i] != [] && RT.Words(rows[i])
    ensures FieldsOf(Lines(Body(rows, d))) == rows
  {
    forall i | 0 <= i < |rows| ensures forall k :: 0 <= k < |rows[i]| ==> '\n' !in rows[i][k] {
      RT.WordsHaveNoNewline(rows[i]);
    }
    LinesOfBody(rows, d);
    var body := Lines(Body(rows, d));
    forall i | 0 <= i < |rows| ensures Fields(body[i]) == rows[i] {
      TokensOfLine(rows[i], d, Whitespace);
    }
  }

  /** A table the unchecked writer puts in a fresh file, under a header
      started by whitespace or by "#" and whitespace, comes back from the
      legacy reader as `(cols, header)`. */
  lemma WriteThenRead(header: seq<string>, data: seq<seq<string>>, cfg: W.Config)
    requires |data| >= 1 && W.Rectangular(data) && |header| == |data|
    requires RT.Words(header) && header[0] != "#" && forall j :: 0 <= j < |data| ==> RT.Words(data[j])
    requires RT.Gap(cfg.delimiter) && SpacedStarter(cfg.headerStarter)
    ensures ReadSpec(true, LegacyText(header, data, cfg), 1) == Columns(data, header)
  {
    var d := cfg.delimiter;
    var s := cfg.headerStarter;
    var rows := W.RowsOf(data, |data[0]|);
    var hl := s + Line(header, d);
    assert HeaderCut(header, |data|) == header;
    assert LegacyText(header, data, cfg) == hl + Body(rows, d);
    RT.WordsHaveNoNewline(header);
    PrefixedLine(s, header, d);
    LinesCons(hl, Body(rows, d));
    assert Lines(hl + Body(rows, d))[1..] == Lines(Body(rows, d));
    HeaderLineNames(s, header, d);
    RowLinesFields(rows, d);
    ReadsOnlyFromFirstLine(true, hl + Body(rows, d), 1);
    RT.ColumnsOfRows(data, rows);
  }

  /** A table of words, as the io writer lays it out with delimiter `d`. */
  predicate WordTable(header: seq<string>, data: seq<seq<string>>, d: string)
  {
    |data| >= 1 && W.Rectangular(data) && |header| == |data| && RT.Gap(d) &&
    RT.HeaderWords(header) && forall j :: 0 <= j < |data| ==> RT.Words(data[j])
  }

  lemma BlankLineFields()
    ensures Fields("\n") == [] && R.Fields("\n", R.Defaults) == []
  {
    assert "\n" == [] + ['\n'] + [];
    TokensAtSeparator([], '\n', [], Whitespace);
    TokensOfNothing(Whitespace);
  }

  /** A blank line before the header: the io reader skips it, the legacy
      reader takes it for the header and raises. */
  lemma LeadingBlankLine(header: seq<string>, data: seq<seq<string>>, d: string)
    requires WordTable(header, data, d)
    ensures var rest := Line(header, d) + Body(W.RowsOf(data, |data[0]|), d);
      R.ReadSpec(true, "\n" + rest, R.Defaults) == R.Table(header, data) &&
      ReadSpec(true, "\n" + rest, 1) == Raised(BlankHeader)
  {
    var rest := Line(header, d) + Body(W.RowsOf(data, |data[0]|), d);
    IoSkipsBlankLine(rest);
    IoReadsTable(header, data, d);
    LegacyFailsOnBlankLine(rest);
  }

  lemma IoReadsTable(header: seq<string>, data: seq<seq<string>>, d: string)
    requires WordTable(header, data, d)
    ensures R.ReadSpec(true, Line(header, d) + Body(W.RowsOf(data, |data[0]|), d), R.Defaults) == R.Table(header, data)
  {
    var rows := W.RowsOf(data, |data[0]|);
    RT.ReadsWritten("", header, rows, d);
    assert "" + Line(header, d) + Body(rows, d) == Line(header, d) + Body(rows, d);
    RT.ColumnsOfRows(data, rows);
  }

  lemma IoSkipsBlankLine(rest: string)
    ensures R.ReadSpec(true, "\n" + rest, R.Defaults) == R.ReadSpec(true, rest, R.Defaults)
  {
    LinesCons("\n", rest);
    BlankLineFields();
    R.SkippedLineInvisible(R.Start, [], "\n", Lines(rest), R.Defaults);
    assert [] + ["\n"] + Lines(rest) == ["\n"] + Lines(rest);
  }

  lemma LegacyFailsOnBlankLine(rest: string)
    ensures ReadSpec(true, "\n" + rest, 1) == Raised(BlankHeader)
  {
    LinesCons("\n", rest);
    BlankLineFields();
    RunFailed(Failed(BlankHeader), Lines(rest), 1);
  }

  /** The legacy reader keeps a "#" glued to the first name. */
  lemma GluedHashKept(header: seq<string>, data: seq<seq<string>>, d: string)
    requires WordTable(header, data, d)
    ensures ReadSpec(true, "#" + Line(header, d) + Body(W.RowsOf(data, |data[0]|), d), 1) ==
            Columns(data, ["#" + header[0]] + header[1..])
  {
    var rows := W.RowsOf(data, |data[0]|);
    var hl := "#" + Line(header, d);
    var text := hl + Body(rows, d);
    GluedHeaderLine(header, d);
    LinesCons(hl, Body(rows, d));
    RowLinesFields(rows, d);
    ReadsOnlyFromFirstLine(true, text, 1);
    RT.ColumnsOfRows(data, rows);
  }

  /** A header line with "#" glued to the first name is one line whose
      fields, and names, are the header with that "#" kept. */
  lemma GluedHeaderLine(header: seq<string>, d: string)
    requires RT.Gap(d) && RT.HeaderWords(header)
    ensures NewlineTerminated("#" + Line(header, d))
    ensures Fields("#" + Line(header, d)) == ["#" + header[0]] + header[1..]
    ensures Names(["#" + header[0]] + header[1..]) == ["#" + header[0]] + header[1..]
  {
    var glued := ["#" + header[0]] + header[1..];
    GluedPrefix("#", header, d);
    assert RT.Words(glued) by {
      assert forall k :: 1 <= k < |glued| ==> glued[k] == header[k];
      assert RT.Word(header[0]);
    }
    TokensOfLine(glued, d, Whitespace);
    assert |glued[0]| > 1;
    RT.WordsHaveNoNewline(header);
    PrefixedLine("#", header, d);
  }

  /** A "#" glued to the first name: the io reader cuts it off, the legacy
      reader keeps it. */
  lemma GluedHash(header: seq<string>, data: seq<seq<string>>, d: string, text: string)
    requires WordTable(header, data, d)
    requires text == "#" + Line(header, d) + Body(W.RowsOf(data, |data[0]|), d)
    ensures R.ReadSpec(true, text, R.Defaults) == R.Table(header, data)
    ensures ReadSpec(true, text, 1) == Columns(data, ["#" + header[0]] + header[1..])
  {
    var rows := W.RowsOf(data, |data[0]|);
    RT.ReadsWritten("#", header, rows, d);
    RT.ColumnsOfRows(data, rows);
    GluedHashKept(header, data, d);
  }

  /** The two-line table "x y" over "1 2", as laid out by the io writer. */
  lemma XYTable()
    ensures WordTable(["x", "y"], [["1"], ["2"]], " ")
    ensures Line(["x", "y"], " ") + Body(W.RowsOf([["1"], ["2"]], 1), " ") == "x y\n1 2\n"
  {
    RT.XYHeader();
    var data := [["1"], ["2"]];
    assert W.RowOf(data, 0) == ["1", "2"];
    assert W.RowsOf(data, 1) == [["1", "2"]];
    assert Line(["x", "y"], " ") == "x y\n";
    assert Body([["1", "2"]], " ") == "1 2\n";
  }

  lemma XYText(text: string)
    requires text == "x y\n1 2\n"
    ensures text == Line(["x", "y"], " ") + Body(W.RowsOf([["1"], ["2"]], 1), " ")
  {
    XYTable();
  }

  /** The contrasts on that table. */
  lemma BlankLineExample(text: string)
    requires text == "\nx y\n1 2\n"
    ensures R.ReadSpec(true, text, R.Defaults) == R.Table(["x", "y"], [["1"], ["2"]])
    ensures ReadSpec(true, text, 1) == Raised(BlankHeader)
  {
    XYTable();
    XYText(text[1..]);
    assert text == "\n" + text[1..];
    LeadingBlankLine(["x", "y"], [["1"], ["2"]], " ");
  }

  lemma GluedHashExample(text: string)
    requires text == "#x y\n1 2\n"
    ensures R.ReadSpec(true, text, R.Defaults) == R.Table(["x", "y"], [["1"], ["2"]])
    ensures ReadSpec(true, text, 1) == Columns([["1"], ["2"]], ["#x", "y"])
  {
    var h := ["x", "y"];
    var data := [["1"], ["2"]];
    XYTable();
    XYText(text[1..]);
    var l := Line(h, " ");
    var b := Body(W.RowsOf(data, 1), " ");
    assert text == "#" + text[1..];
    assert "#" + l + b == "#" + (l + b);
    GluedHash(h, data, " ", text);
    assert "#" + h[0] == "#x";
    assert h[1..] == ["y"];
  }
}
