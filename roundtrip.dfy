/** What `readcol` makes of what `writecol` wrote: with the default reader,
    a file written as a header and columns of whitespace-free cells is read
    back as that header and those columns, and an appended block of rows
    extends every column. */
module RoundTrip {
  import opened Text
  import R = ReadCol
  import W = WriteCol
  import Files

  /** A cell or a name the default reader gives back unchanged. */
  predicate Word(s: string)
  {
    s != "" && SeparatorFree(s, Whitespace)
  }

  predicate Words(cells: seq<string>)
  {
    forall k :: 0 <= k < |cells| ==> Word(cells[k])
  }

  /** A delimiter the default reader splits on: whitespace, no newline. */
  predicate Gap(d: string)
  {
    d != [] && AllSeparators(d, Whitespace) && '\n' !in d
  }

  /** A header starter the default reader looks past: whitespace, or a "#"
      followed by whitespace, and no newline. */
  predicate ReadableStarter(s: string)
  {
    '\n' !in s &&
    (AllSeparators(s, Whitespace) || (s != [] && s[0] == '#' && AllSeparators(s[1..], Whitespace)))
  }

  /** Names the default reader takes for a header. */
  predicate HeaderWords(header: seq<string>)
  {
    header != [] && Words(header) && !StartsWith(header[0], "#")
  }

  lemma WordsHaveNoNewline(cells: seq<string>)
    requires Words(cells)
    ensures forall k :: 0 <= k < |cells| ==> '\n' !in cells[k]
  {
    forall k | 0 <= k < |cells| ensures '\n' !in cells[k] {
      assert SeparatorFree(cells[k], Whitespace);
      assert '\n' in Whitespace;
    }
  }

  /** The header line is counted, and its names are the header. */
  lemma HeaderLineFields(starter: string, header: seq<string>, d: string)
    requires ReadableStarter(starter) && Gap(d) && HeaderWords(header)
    ensures var toks := R.Fields(starter + Line(header, d), R.Defaults);
      toks != [] && !R.Skipped(toks, R.Defaults.comment) && R.HeaderNames(toks) == Some(header)
  {
    NotHash(header);
    if AllSeparators(starter, Whitespace) {
      SpacedHeaderFields(starter, header, d);
    } else if |starter| > 1 {
      HashSpacedHeaderFields(starter, header, d);
      assert (["#"] + header)[1..] == header;
    } else {
      assert starter == "#";
      GluedHeaderFields(header, d);
      var g := "#" + header[0];
      assert |g| > 1 && g[1..] == header[0] && StartsWith(g, "#");
      assert [g[1..]] + ([g] + header[1..])[1..] == header;
    }
  }

  lemma NotHash(header: seq<string>)
    requires HeaderWords(header)
    ensures header[0] != "#" && header[0][0] !in Whitespace
  {
    if header[0] == "#" { assert StartsWith(header[0], "#"); }
  }

  /** A whitespace starter is passed over. */
  lemma SpacedHeaderFields(starter: string, header: seq<string>, d: string)
    requires AllSeparators(starter, Whitespace) && Gap(d) && HeaderWords(header)
    ensures R.Fields(starter + Line(header, d), R.Defaults) == header
  {
    assert R.Separators(R.Defaults.delimiter) == Whitespace;
    TokensOfLine(header, d, Whitespace);
    NotHash(header);
    LeadingRun(starter, Line(header, d), Whitespace);
  }

  /** "#" and whitespace give a lone "#" field, which the reader drops. */
  lemma HashSpacedHeaderFields(starter: string, header: seq<string>, d: string)
    requires ReadableStarter(starter) && !AllSeparators(starter, Whitespace) && |starter| > 1
    requires Gap(d) && HeaderWords(header)
    ensures R.Fields(starter + Line(header, d), R.Defaults) == ["#"] + header
  {
    var l := Line(header, d);
    assert R.Separators(R.Defaults.delimiter) == Whitespace;
    TokensOfLine(header, d, Whitespace);
    NotHash(header);
    var w := starter[1..];
    assert starter == "#" + w;
    TokensAtRun("#", w, l, Whitespace);
    TokensAtom("#", Whitespace);
  }

  /** A bare "#" glues to the first name, and the reader cuts it off again. */
  lemma GluedHeaderFields(header: seq<string>, d: string)
    requires Gap(d) && HeaderWords(header)
    ensures R.Fields("#" + Line(header, d), R.Defaults) == ["#" + header[0]] + header[1..]
  {
    assert R.Separators(R.Defaults.delimiter) == Whitespace;
    GluedPrefix("#", header, d);
    var glued := ["#" + header[0]] + header[1..];
    assert forall k :: 0 <= k < |glued| ==> glued[k] != "" && SeparatorFree(glued[k], Whitespace) by {
      assert SeparatorFree(header[0], Whitespace);
      assert forall k :: 1 <= k < |glued| ==> glued[k] == header[k];
    }
    TokensOfLine(glued, d, Whitespace);
  }

  /** Cells the reader with delimiter text `delim` keeps whole: non-empty and
      free of its separators. */
  predicate Cells(cells: seq<string>, delim: string)
  {
    forall k :: 0 <= k < |cells| ==> cells[k] != "" && SeparatorFree(cells[k], R.Separators(delim))
  }

  lemma WordsAreCells(cells: seq<string>)
    requires Words(cells)
    ensures Cells(cells, R.Defaults.delimiter)
  {
    assert R.Separators(R.Defaults.delimiter) == Whitespace;
  }

  /** Lines laid out from rows of cells are all counted, and their fields are the rows. */
  lemma {:induction false} RowLines(rows: seq<seq<string>>, lines: seq<string>, d: string, cfg: R.Config)
    requires cfg.comment == R.Defaults.comment
    requires d != [] && AllSeparators(d, R.Separators(cfg.delimiter))
    requires forall i :: 0 <= i < |rows| ==> rows[i] != [] && Cells(rows[i], cfg.delimiter)
    requires |lines| == |rows| && forall i :: 0 <= i < |rows| ==> lines[i] == Line(rows[i], d)
    ensures R.Rows(lines, cfg) == rows
  {
    if rows != [] {
      var seps := R.Separators(cfg.delimiter);
      assert '\n' in seps && ' ' in seps;
      TokensOfLine(rows[0], d, seps);
      assert rows[0][0][0] !in seps;
      RowLines(rows[1..], lines[1..], d, cfg);
    }
  }

  /** A header line and row lines of words read back as the header and the
      columns of those rows. */
  lemma ReadsWritten(starter: string, header: seq<string>, rows: seq<seq<string>>, d: string)
    requires ReadableStarter(starter) && Gap(d) && HeaderWords(header)
    requires forall i :: 0 <= i < |rows| ==> rows[i] != [] && Words(rows[i])
    ensures R.ReadSpec(true, starter + Line(header, d) + Body(rows, d), R.Defaults) ==
      R.Table(header, seq(|header|, j requires 0 <= j < |header| => R.Column(rows, j)))
  {
    var hl := starter + Line(header, d);
    WordsHaveNoNewline(header);
    PrefixedLine(starter, header, d);
    LinesCons(hl, Body(rows, d));
    forall i | 0 <= i < |rows| ensures forall k :: 0 <= k < |rows[i]| ==> '\n' !in rows[i][k] {
      WordsHaveNoNewline(rows[i]);
    }
    LinesOfBody(rows, d);
    var body := Lines(Body(rows, d));
    forall i | 0 <= i < |rows| ensures Cells(rows[i], R.Defaults.delimiter) {
      WordsAreCells(rows[i]);
    }
    RowLines(rows, body, d, R.Defaults);
    HeaderLineFields(starter, header, d);
    R.ReadsHeaderAndRows(R.Defaults, [], hl, [], body, header);
    assert [] + [hl] + [] + body == Lines(hl + Body(rows, d));
  }

  lemma CellsHaveNoNewline(cells: seq<string>, delim: string)
    requires Cells(cells, delim)
    ensures forall k :: 0 <= k < |cells| ==> '\n' !in cells[k]
  {
    assert '\n' in R.Separators(delim);
    forall k | 0 <= k < |cells| ensures '\n' !in cells[k] {
      assert SeparatorFree(cells[k], R.Separators(delim));
    }
  }

  /** With a delimiter of its own, the reader splits at the delimiter's
      characters (and at whitespace and '+'): a header line and row lines
      joined by that delimiter read back as the header and the columns. */
  lemma ReadsDelimited(delim: string, header: seq<string>, rows: seq<seq<string>>)
    requires delim != R.WhitespaceDelimiter && delim != "" && '\n' !in delim
    requires header != [] && Cells(header, delim) && !StartsWith(header[0], "#")
    requires forall i :: 0 <= i < |rows| ==> rows[i] != [] && Cells(rows[i], delim)
    ensures R.ReadSpec(true, Line(header, delim) + Body(rows, delim), R.Defaults.(delimiter := delim)) ==
      R.Table(header, seq(|header|, j requires 0 <= j < |header| => R.Column(rows, j)))
  {
    var cfg := R.Defaults.(delimiter := delim);
    var hl := Line(header, delim);
    DelimitedHeader(delim, header);
    var body := DelimitedLines(delim, hl, rows);
    R.ReadsHeaderAndRows(cfg, [], hl, [], body, header);
    Alone(hl, body);
    SameColumns(R.Rows(body, cfg), rows, |header|);
  }

  /** A line with nothing before it and nothing between it and the rest. */
  lemma Alone(hl: string, body: seq<string>)
    ensures [] + [hl] + [] + body == [hl] + body
  {
  }

  /** Equal rows give equal column lists. */
  lemma SameColumns(a: seq<seq<string>>, b: seq<seq<string>>, n: nat)
    requires a == b
    ensures seq(n, j requires 0 <= j < n => R.Column(a, j)) == seq(n, j requires 0 <= j < n => R.Column(b, j))
  {
  }

  /** The header line is one counted line whose names are the header. */
  lemma DelimitedHeader(delim: string, header: seq<string>)
    requires delim != R.WhitespaceDelimiter && delim != "" && '\n' !in delim
    requires header != [] && Cells(header, delim) && !StartsWith(header[0], "#")
    ensures NewlineTerminated(Line(header, delim))
    ensures var toks := R.Fields(Line(header, delim), R.Defaults.(delimiter := delim));
      toks == header && !R.Skipped(toks, R.Defaults.comment) && R.HeaderNames(toks) == Some(header)
  {
    var seps := R.Separators(delim);
    assert AllSeparators(delim, seps);
    CellsHaveNoNewline(header, delim);
    PrefixedLine("", header, delim);
    assert "" + Line(header, delim) == Line(header, delim);
    TokensOfLine(header, delim, seps);
    assert header[0][0] !in seps && ' ' in seps;
    assert StartsWith("#", "#");
  }

  /** After a header line, the row lines are the text's other lines, and
      their fields are the rows. */
  lemma DelimitedLines(delim: string, hl: string, rows: seq<seq<string>>) returns (body: seq<string>)
    requires delim != R.WhitespaceDelimiter && delim != "" && '\n' !in delim
    requires NewlineTerminated(hl)
    requires forall i :: 0 <= i < |rows| ==> rows[i] != [] && Cells(rows[i], delim)
    ensures Lines(hl + Body(rows, delim)) == [hl] + body
    ensures R.Rows(body, R.Defaults.(delimiter := delim)) == rows
  {
    var cfg := R.Defaults.(delimiter := delim);
    assert AllSeparators(delim, R.Separators(delim));
    LinesCons(hl, Body(rows, delim));
    forall i | 0 <= i < |rows| ensures forall k :: 0 <= k < |rows[i]| ==> '\n' !in rows[i][k] {
      CellsHaveNoNewline(rows[i], delim);
    }
    LinesOfBody(rows, delim);
    body := Lines(Body(rows, delim));
    RowLines(rows, body, delim, cfg);
  }

  /** Writing the table where nothing is kept and reading it back gives the table. */
  lemma WriteThenRead(present: bool, content: string, data: seq<seq<string>>, header: seq<string>, cfg: W.Config)
    requires !present || (cfg.overwrite && cfg.mode == Files.Truncate)
    requires |data| >= 1 && W.Rectangular(data) && |header| == |data|
    requires HeaderWords(header) && forall j :: 0 <= j < |data| ==> Words(data[j])
    requires ReadableStarter(cfg.headerStarter) && Gap(cfg.delimiter)
    ensures var w := W.WriteSpec(present, content, data, header, cfg);
      w.status == W.Written && w.file.present &&
      R.ReadSpec(w.file.present, w.file.content, R.Defaults) == R.Table(header, data)
  {
    var n := |data[0]|;
    var rows := W.RowsOf(data, n);
    ReadsWritten(cfg.headerStarter, header, rows, cfg.delimiter);
    ColumnsOfRows(data, rows);
    assert "" + W.Serialize(header, data, cfg) == cfg.headerStarter + Line(header, cfg.delimiter) + Body(rows, cfg.delimiter);
  }

  /** The columns of the rows of rectangular columns are those columns. */
  lemma ColumnsOfRows(data: seq<seq<string>>, rows: seq<seq<string>>)
    requires |data| >= 1 && W.Rectangular(data) && rows == W.RowsOf(data, |data[0]|)
    ensures seq(|data|, j requires 0 <= j < |data| => R.Column(rows, j)) == data
  {
    forall j | 0 <= j < |data| ensures R.Column(rows, j) == data[j] {
      R.ColumnOfFullRows(rows, j);
    }
  }

  /** A first write with a header, then an appending write of more rows without
      one, read back as the header and the two blocks of each column joined. */
  lemma AppendThenRead(data1: seq<seq<string>>, header: seq<string>, cfg1: W.Config,
                       data2: seq<seq<string>>, cfg2: W.Config)
    requires |data1| >= 1 && W.Rectangular(data1) && |header| == |data1|
    requires |data2| == |data1| && W.Rectangular(data2)
    requires HeaderWords(header)
    requires forall j :: 0 <= j < |data1| ==> Words(data1[j]) && Words(data2[j])
    requires ReadableStarter(cfg1.headerStarter) && Gap(cfg1.delimiter)
    requires cfg2.overwrite && cfg2.mode == Files.Append && cfg2.delimiter == cfg1.delimiter
    ensures var w1 := W.WriteSpec(false, "", data1, header, cfg1);
      var w2 := W.WriteSpec(w1.file.present, w1.file.content, data2, [], cfg2);
      w2.notices == [W.Reusing(Files.Append)] && w2.status == W.Written &&
      R.ReadSpec(w2.file.present, w2.file.content, R.Defaults) ==
        R.Table(header, seq(|data1|, j requires 0 <= j < |data1| => data1[j] + data2[j]))
  {
    var d := cfg1.delimiter;
    var rows1 := W.RowsOf(data1, |data1[0]|);
    var rows2 := W.RowsOf(data2, |data2[0]|);
    var hl := cfg1.headerStarter + Line(header, d);
    var c1 := hl + Body(rows1, d);
    FirstWrite(data1, header, cfg1);
    SecondWrite(c1, data2, cfg2);
    BodyConcat(rows1, rows2, d);
    assert c1 + Body(rows2, d) == hl + Body(rows1 + rows2, d);
    ReadsWritten(cfg1.headerStarter, header, rows1 + rows2, d);
    JoinedColumns(data1, data2, rows1, rows2);
  }

  /** A first write with a header to a missing file. */
  lemma FirstWrite(data: seq<seq<string>>, header: seq<string>, cfg: W.Config)
    requires |data| >= 1 && W.Rectangular(data) && |header| == |data|
    ensures W.WriteSpec(false, "", data, header, cfg) ==
      W.WriteResult([W.Creating], W.Written,
        W.FileState(true, cfg.headerStarter + Line(header, cfg.delimiter) + Body(W.RowsOf(data, |data[0]|), cfg.delimiter)))
  {
    assert "" + W.Serialize(header, data, cfg) == W.Serialize(header, data, cfg);
  }

  /** An appending write without a header keeps the text and adds the rows. */
  lemma SecondWrite(content: string, data: seq<seq<string>>, cfg: W.Config)
    requires |data| >= 1 && W.Rectangular(data)
    requires cfg.overwrite && cfg.mode == Files.Append
    ensures W.WriteSpec(true, content, data, [], cfg) ==
      W.WriteResult([W.Reusing(Files.Append)], W.Written,
        W.FileState(true, content + Body(W.RowsOf(data, |data[0]|), cfg.delimiter)))
  {
    assert W.Serialize([], data, cfg) == Body(W.RowsOf(data, |data[0]|), cfg.delimiter);
  }

  lemma JoinedColumns(data1: seq<seq<string>>, data2: seq<seq<string>>,
                      rows1: seq<seq<string>>, rows2: seq<seq<string>>)
    requires |data1| >= 1 && W.Rectangular(data1) && rows1 == W.RowsOf(data1, |data1[0]|)
    requires |data2| == |data1| && W.Rectangular(data2) && rows2 == W.RowsOf(data2, |data2[0]|)
    ensures seq(|data1|, j requires 0 <= j < |data1| => R.Column(rows1 + rows2, j)) ==
            seq(|data1|, j requires 0 <= j < |data1| => data1[j] + data2[j])
  {
    ColumnsOfRows(data1, rows1);
    ColumnsOfRows(data2, rows2);
    forall j | 0 <= j < |data1| ensures R.Column(rows1 + rows2, j) == data1[j] + data2[j] {
      R.ColumnConcat(rows1, rows2, j);
      assert R.Column(rows1, j) == data1[j];
    }
  }

  // ---------------------------------------------------------------------------
  // The writer's tests, as scenarios over the model

  const X: seq<seq<string>> := [["1", "2", "3", "4"], [".1", ".2", ".3", ".4"]]
  const More: seq<seq<string>> := [["5", "6"], [".5", ".6"]]

  lemma XYHeader()
    ensures HeaderWords(["x", "y"])
  {
    var x := "x";
    assert x[..1][0] == 'x';
    assert !StartsWith(x, "#");
  }

  /** The nominal file reads back as written. */
  lemma NominalScenario()
    ensures var w := W.WriteSpec(false, "", X, ["x", "y"], W.Defaults);
      w.notices == [W.Creating] &&
      R.ReadSpec(w.file.present, w.file.content, R.Defaults) == R.Table(["x", "y"], X)
  {
    XYHeader();
    WriteThenRead(false, "", X, ["x", "y"], W.Defaults);
  }

  /** A second call with overwrite off prints the halting notice first and
      leaves the file as the first call wrote it. */
  lemma OverwriteOffScenario()
    ensures var w1 := W.WriteSpec(false, "", X, ["x", "y"], W.Defaults);
      var w2 := W.WriteSpec(w1.file.present, w1.file.content, X, ["x", "y"], W.Defaults);
      w2.notices[0] == W.Halting && w2.file == w1.file
  {
  }

  /** Appending two more rows with 'a+' gives six rows under the first header. */
  lemma AppendScenario()
    ensures var w1 := W.WriteSpec(false, "", X, ["x", "y"], W.Defaults);
      var w2 := W.WriteSpec(w1.file.present, w1.file.content, More, [], W.Defaults.(overwrite := true));
      w2.notices == [W.Reusing(Files.Append)] &&
      R.ReadSpec(w2.file.present, w2.file.content, R.Defaults) ==
        R.Table(["x", "y"], [["1", "2", "3", "4", "5", "6"], [".1", ".2", ".3", ".4", ".5", ".6"]])
  {
    XYHeader();
    WordColumns();
    AppendThenRead(X, ["x", "y"], W.Defaults, More, W.Defaults.(overwrite := true));
    var joined := seq(|X|, j requires 0 <= j < |X| => X[j] + More[j]);
    assert joined == [X[0] + More[0], X[1] + More[1]];
    assert X[0] + More[0] == ["1", "2", "3", "4", "5", "6"];
    assert X[1] + More[1] == [".1", ".2", ".3", ".4", ".5", ".6"];
  }

  /** The test columns are rectangular columns of words. */
  lemma WordColumns()
    ensures W.Rectangular(X) && W.Rectangular(More) && |X| == |More| == 2
    ensures forall j :: 0 <= j < 2 ==> Words(X[j]) && Words(More[j])
  {
    forall j, k | 0 <= j < 2 && 0 <= k < |X[j]| ensures Word(X[j][k]) {
      DigitWord(X[j][k]);
    }
    forall j, k | 0 <= j < 2 && 0 <= k < |More[j]| ensures Word(More[j][k]) {
      DigitWord(More[j][k]);
    }
  }

  /** A digit, or a point and a digit, is a word. */
  lemma DigitWord(s: string)
    requires (|s| == 1 && '0' <= s[0] <= '9') || (|s| == 2 && s[0] == '.' && '0' <= s[1] <= '9')
    ensures Word(s)
  {
  }

  /** Rewriting with 'w' leaves only the new rows. */
  lemma TruncateScenario()
    ensures var w1 := W.WriteSpec(false, "", X, ["x", "y"], W.Defaults);
      var cfg := W.Defaults.(mode := Files.Truncate, overwrite := true);
      var w2 := W.WriteSpec(w1.file.present, w1.file.content, More, ["x", "y"], cfg);
      w2.notices == [W.Reusing(Files.Truncate)] &&
      R.ReadSpec(w2.file.present, w2.file.content, R.Defaults) == R.Table(["x", "y"], More)
  {
    var w1 := W.WriteSpec(false, "", X, ["x", "y"], W.Defaults);
    XYHeader();
    WriteThenRead(w1.file.present, w1.file.content, More, ["x", "y"],
                  W.Defaults.(mode := Files.Truncate, overwrite := true));
  }

  /** Ragged columns and a header of the wrong length are refused with the
      notice the tests look for on the second line. */
  lemma RefusalScenarios()
    ensures W.WriteSpec(false, "", [["1", "2", "3"], [".1", ".2", ".3", ".4"]], ["x", "y", "z"], W.Defaults).notices
            == [W.Creating, W.NotSameLength]
    ensures W.WriteSpec(false, "", X, ["x", "y", "z"], W.Defaults).notices == [W.Creating, W.HeaderMismatch(3, 2)]
    ensures W.WriteSpec(false, "", X, ["x"], W.Defaults).notices == [W.Creating, W.HeaderMismatch(1, 2)]
  {
    var ragged := [["1", "2", "3"], [".1", ".2", ".3", ".4"]];
    assert |ragged[1]| != |ragged[0]|;
    assert W.Rectangular(X);
  }

  // ---------------------------------------------------------------------------
  // The reader's tests, on the texts their files evidently hold

  const NominalRows: seq<seq<string>> := [["1", ".1"], ["2", ".2"], ["3", ".3"], ["4", ".4"]]

  lemma NominalRowsOfX()
    ensures W.RowsOf(X, 4) == NominalRows
  {
    assert W.RowOf(X, 0) == NominalRows[0];
    assert W.RowOf(X, 1) == NominalRows[1];
    assert W.RowOf(X, 2) == NominalRows[2];
    assert W.RowOf(X, 3) == NominalRows[3];
  }

  lemma NominalBody()
    ensures Body(NominalRows, " ") == "1 .1\n2 .2\n3 .3\n4 .4\n"
  {
    var r := NominalRows;
    assert Line(r[0], " ") == "1 .1\n";
    assert Line(r[1], " ") == "2 .2\n";
    assert Line(r[2], " ") == "3 .3\n";
    assert Line(r[3], " ") == "4 .4\n";
    assert r[1..][1..][1..][1..] == [];
    assert Body(r[1..][1..][1..], " ") == "4 .4\n";
    assert Body(r[1..][1..], " ") == "3 .3\n4 .4\n";
    assert Body(r[1..], " ") == "2 .2\n3 .3\n4 .4\n";
  }

  lemma NominalText(text: string)
    requires text == "x y\n1 .1\n2 .2\n3 .3\n4 .4\n"
    ensures text == "" + Line(["x", "y"], " ") + Body(NominalRows, " ")
  {
    NominalBody();
    XYLine();
  }

  lemma XYLine()
    ensures Line(["x", "y"], " ") == "x y\n"
  {
    assert Line(["y"], " ") == "y\n";
  }

  lemma NominalReadable()
    ensures W.Rectangular(X) && HeaderWords(["x", "y"])
    ensures forall i :: 0 <= i < |NominalRows| ==> NominalRows[i] != [] && Words(NominalRows[i])
  {
    XYHeader();
  }

  /** A header line and four rows of two columns. */
  lemma NominalFile(text: string)
    requires text == "x y\n1 .1\n2 .2\n3 .3\n4 .4\n"
    ensures R.ReadSpec(true, text, R.Defaults) == R.Table(["x", "y"], X)
  {
    NominalText(text);
    NominalReadable();
    ReadsWritten("", ["x", "y"], NominalRows, " ");
    NominalRowsOfX();
    ColumnsOfRows(X, NominalRows);
  }

  const Single: seq<seq<string>> := [["1", "2", "3", "4"]]
  const SingleRows: seq<seq<string>> := [["1"], ["2"], ["3"], ["4"]]

  lemma SingleRowsOf()
    ensures W.RowsOf(Single, 4) == SingleRows
  {
    assert W.RowOf(Single, 0) == SingleRows[0] && W.RowOf(Single, 1) == SingleRows[1];
    assert W.RowOf(Single, 2) == SingleRows[2] && W.RowOf(Single, 3) == SingleRows[3];
  }

  lemma SingleText(text: string)
    requires text == "x\n1\n2\n3\n4\n"
    ensures text == "" + Line(["x"], " ") + Body(SingleRows, " ")
  {
    var r := SingleRows;
    assert r[1..][1..][1..] == [["4"]];
    assert Body(r[1..][1..][1..], " ") == "4\n";
    assert Body(r[1..][1..], " ") == "3\n4\n";
    assert Body(r[1..], " ") == "2\n3\n4\n";
  }

  lemma SingleReadable()
    ensures W.Rectangular(Single) && HeaderWords(["x"])
    ensures forall i :: 0 <= i < |SingleRows| ==> SingleRows[i] != [] && Words(SingleRows[i])
  {
    var x := "x";
    assert x[..1][0] == 'x';
    forall i | 0 <= i < 4 ensures Words(SingleRows[i]) {
      DigitWord(SingleRows[i][0]);
    }
  }

  /** One column under a one-name header. */
  lemma SingleColumnFile(text: string)
    requires text == "x\n1\n2\n3\n4\n"
    ensures R.ReadSpec(true, text, R.Defaults) == R.Table(["x"], Single)
  {
    SingleText(text);
    SingleReadable();
    ReadsWritten("", ["x"], SingleRows, " ");
    SingleRowsOf();
    ColumnsOfRows(Single, SingleRows);
  }

  lemma TwoIndices()
    ensures R.Indices(2) == ["0", "1"]
  {
    assert NatToString(0) == "0" && NatToString(1) == "1";
  }

  lemma NoHeaderLines(text: string) returns (lines: seq<string>)
    requires text == "1 .1\n2 .2\n3 .3\n4 .4\n"
    ensures Lines(text) == lines && |lines| == |NominalRows| >= 1
    ensures forall i :: 0 <= i < |NominalRows| ==> lines[i] == Line(NominalRows[i], " ")
  {
    NominalBody();
    lines := seq(4, i requires 0 <= i < 4 => Line(NominalRows[i], " "));
    forall i | 0 <= i < 4 ensures forall k :: 0 <= k < |NominalRows[i]| ==> '\n' !in NominalRows[i][k] {
      WordsHaveNoNewline(NominalRows[i]);
    }
    LinesOfBody(NominalRows, " ");
  }

  /** With `headerstart = datastart = 0` the first row is data and the
      columns are named "0" and "1". */
  lemma NoHeaderFile(text: string)
    requires text == "1 .1\n2 .2\n3 .3\n4 .4\n"
    ensures R.ReadSpec(true, text, R.Defaults.(headerstart := 0, datastart := 0)) == R.Table(["0", "1"], X)
  {
    var cfg := R.Defaults.(headerstart := 0, datastart := 0);
    var lines := NoHeaderLines(text);
    NominalReadable();
    forall i | 0 <= i < |NominalRows| ensures Cells(NominalRows[i], cfg.delimiter) {
      WordsAreCells(NominalRows[i]);
    }
    RowLines(NominalRows, lines, " ", cfg);
    assert lines == [] + [lines[0]] + lines[1..];
    R.ReadsWithoutHeader(cfg, [], lines[0], lines[1..]);
    TwoIndices();
    NominalRowsOfX();
    ColumnsOfRows(X, NominalRows);
  }

  lemma PipeLayout(text: string)
    requires text == "x|y\n1|.1\n2|.2\n3|.3\n4|.4\n"
    ensures text == Line(["x", "y"], "|") + Body(NominalRows, "|")
  {
    PipeHeader();
    PipeBody();
    assert "x|y\n" + "1|.1\n2|.2\n3|.3\n4|.4\n" == text;
  }

  lemma PipeHeader()
    ensures Line(["x", "y"], "|") == "x|y\n"
  {
    assert Line(["y"], "|") == "y\n";
  }

  lemma PipeBody()
    ensures Body(NominalRows, "|") == "1|.1\n2|.2\n3|.3\n4|.4\n"
  {
    var r := NominalRows;
    assert Line(r[0], "|") == "1|.1\n";
    assert Line(r[1], "|") == "2|.2\n";
    assert Line(r[2], "|") == "3|.3\n";
    assert Line(r[3], "|") == "4|.4\n";
    assert r[1..][1..][1..][1..] == [];
    assert Body(r[1..][1..][1..], "|") == "4|.4\n";
    assert Body(r[1..][1..], "|") == "3|.3\n4|.4\n";
    assert Body(r[1..], "|") == "2|.2\n3|.3\n4|.4\n";
  }

  /** Letters, digits and points are not separators for the delimiter "|". */
  lemma PlainCell(c: string)
    requires c != "" && forall i :: 0 <= i < |c| ==> ('0' <= c[i] <= '9' || c[i] == '.' || 'a' <= c[i] <= 'z')
    ensures SeparatorFree(c, R.Separators("|"))
  {
    var d := "|";
    assert d[0] == '|';
    assert (set i | 0 <= i < |d| :: d[i]) == {'|'};
  }

  lemma PipeCells()
    ensures Cells(["x", "y"], "|") && forall i :: 0 <= i < |NominalRows| ==> Cells(NominalRows[i], "|")
  {
    var h := ["x", "y"];
    forall k | 0 <= k < 2 ensures SeparatorFree(h[k], R.Separators("|")) {
      PlainCell(h[k]);
    }
    forall i, k | 0 <= i < 4 && 0 <= k < 2 ensures SeparatorFree(NominalRows[i][k], R.Separators("|")) {
      PlainCell(NominalRows[i][k]);
    }
  }

  /** The same table with "|" between the cells, read with delimiter "|". */
  lemma PipeFile(text: string)
    requires text == "x|y\n1|.1\n2|.2\n3|.3\n4|.4\n"
    ensures R.ReadSpec(true, text, R.Defaults.(delimiter := "|")) == R.Table(["x", "y"], X)
  {
    PipeLayout(text);
    PipeCells();
    XYHeader();
    ReadsDelimited("|", ["x", "y"], NominalRows);
    NominalRowsOfX();
    assert W.Rectangular(X);
    ColumnsOfRows(X, NominalRows);
  }
}
