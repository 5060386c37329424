/** The column writer `writecol` of analysis_tools/io/writecol.py.

    It refuses to touch an existing file unless `overwrite` is set, then
    refuses columns of unequal length and a header whose length differs from
    the number of columns, and only then opens the file in the given mode and
    writes an optional header line (the header starter followed by the names)
    and one line per row, the cells joined by the delimiter. */
module WriteCol {
  import opened Text
  import opened Files

  /** The parameters of `writecol` other than the file, the data and the header. */
  datatype Config = Config(delimiter: string, headerStarter: string, mode: Mode, overwrite: bool)

  /** deliminator=' ', headerstarter='# ', writer='a+', overwrite=False. */
  const Defaults: Config := Config(" ", "# ", Append, false)

  /** The notices the writer prints, in the order it prints them. */
  datatype Notice =
    | Halting                                  // exists and overwrite is False
    | Reusing(mode: Mode)                      // exists, overwriting or appending
    | Creating                                 // does not exist yet
    | NotSameLength                            // columns not all same length
    | HeaderMismatch(headerLen: nat, ncols: nat)

  /** Written; returned without writing; or IndexError at `data[0]` for empty data. */
  datatype Status = Written | Refused | RaisedIndexError

  datatype FileState = FileState(present: bool, content: string)

  datatype WriteResult = WriteResult(notices: seq<Notice>, status: Status, file: FileState)

  /** Every column as long as the first. */
  predicate Rectangular(data: seq<seq<string>>)
  {
    forall j :: 0 <= j < |data| ==> |data[j]| == |data[0]|
  }

  /** Row i: cell i of every column. */
  function RowOf(data: seq<seq<string>>, i: nat): (r: seq<string>)
    requires forall j :: 0 <= j < |data| ==> i < |data[j]|
    ensures |r| == |data| && forall j :: 0 <= j < |data| ==> r[j] == data[j][i]
  {
    seq(|data|, j requires 0 <= j < |data| => data[j][i])
  }

  /** The first `nrows` rows. */
  function RowsOf(data: seq<seq<string>>, nrows: nat): (r: seq<seq<string>>)
    requires forall j :: 0 <= j < |data| ==> nrows <= |data[j]|
    ensures |r| == nrows && forall i :: 0 <= i < nrows ==> r[i] == RowOf(data, i)
  {
    seq(nrows, i requires 0 <= i < nrows => RowOf(data, i))
  }

  /** The header line, or nothing when there is no header. */
  function HeaderText(header: seq<string>, d: string, starter: string): string
  {
    if header == [] then "" else starter + Line(header, d)
  }

  /** Everything one successful call writes. */
  function Serialize(header: seq<string>, data: seq<seq<string>>, cfg: Config): string
    requires |data| >= 1 && Rectangular(data)
  {
    HeaderText(header, cfg.delimiter, cfg.headerStarter) + Body(RowsOf(data, |data[0]|), cfg.delimiter)
  }

  /** What `writecol` prints, how it ends and what the file holds afterwards. */
  function WriteSpec(present: bool, content: string, data: seq<seq<string>>, header: seq<string>,
                     cfg: Config): WriteResult
  {
    var before := FileState(present, content);
    if present && !cfg.overwrite then WriteResult([Halting], Refused, before)
    else
      var first := if present then Reusing(cfg.mode) else Creating;
      if !Rectangular(data) then WriteResult([first, NotSameLength], Refused, before)
      else if |data| == 0 then WriteResult([first], RaisedIndexError, before)
      else if header != [] && |header| != |data| then
        WriteResult([first, HeaderMismatch(|header|, |data|)], Refused, before)
      else
        var kept := if cfg.mode == Truncate || !present then "" else content;
        WriteResult([first], Written, FileState(true, kept + Serialize(header, data, cfg)))
  }

  // ---------------------------------------------------------------------------
  // The writer as the source writes it

  /** Builds `start` followed by the cells, each followed by `d` and the last
      by a newline. */
  method BuildLine(start: string, cells: seq<string>, d: string) returns (line: string)
    ensures line == start + Line(cells, d)
  {
    line := start;
    var j := 0;
    while j < |cells|
      invariant 0 <= j <= |cells|
      invariant line + Line(cells[j..], d) == start + Line(cells, d)
    {
      LineFrom(cells, d, j);
      if j == |cells| - 1 {
        line := line + cells[j] + "\n";
      } else {
        line := line + cells[j] + d;
      }
      j := j + 1;
    }
  }

  /** Writes rows 0 to `nrows - 1`, one line each. */
  method WriteRows(f: TextFile, data: seq<seq<string>>, nrows: nat, d: string)
    requires f.present && forall j :: 0 <= j < |data| ==> nrows <= |data[j]|
    modifies f
    ensures f.present && f.content == old(f.content) + Body(RowsOf(data, nrows), d)
  {
    ghost var rows := RowsOf(data, nrows);
    var i := 0;
    while i < nrows
      invariant 0 <= i <= nrows
      invariant f.present && f.content == old(f.content) + Body(rows[..i], d)
    {
      var line := BuildLine("", RowOf(data, i), d);
      BodySnoc(rows[..i], rows[i], d);
      assert rows[..i + 1] == rows[..i] + [rows[i]];
      f.Write(line);
      i := i + 1;
    }
    assert rows[..i] == rows;
  }

  /** Writes the header line, if any, and then one line per row. */
  method WriteTable(f: TextFile, data: seq<seq<string>>, header: seq<string>, cfg: Config)
    requires f.present && |data| >= 1 && Rectangular(data)
    modifies f
    ensures f.present && f.content == old(f.content) + Serialize(header, data, cfg)
  {
    var nrows := |data[0]|;
    if header != [] {
      var headerline := BuildLine(cfg.headerStarter, header, cfg.delimiter);
      f.Write(headerline);
    }
    WriteRows(f, data, nrows, cfg.delimiter);
  }

  method WriteCol(f: TextFile, data: seq<seq<string>>, header: seq<string>, cfg: Config)
    returns (notices: seq<Notice>, status: Status)
    modifies f
    ensures WriteResult(notices, status, FileState(f.present, f.content)) ==
            WriteSpec(old(f.present), old(f.content), data, header, cfg)
  {
    if f.present && !cfg.overwrite {
      return [Halting], Refused;
    }
    notices := [if f.present then Reusing(cfg.mode) else Creating];
    var ncols := |data|;
    if !(forall j | 0 <= j < |data| :: |data[j]| == |data[0]|) {
      return notices + [NotSameLength], Refused;
    }
    if |data| == 0 {
      return notices, RaisedIndexError;
    }
    if header != [] && |header| != ncols {
      return notices + [HeaderMismatch(|header|, ncols)], Refused;
    }
    f.Open(cfg.mode);
    WriteTable(f, data, header, cfg);
    status := Written;
  }

  // ---------------------------------------------------------------------------
  // Properties

  /** An existing file with overwrite off is left as it is, whatever the mode,
      the data or the header, and the halting notice is all that is printed. */
  lemma ExistingFileGuarded(content: string, data: seq<seq<string>>, header: seq<string>, cfg: Config)
    requires !cfg.overwrite
    ensures WriteSpec(true, content, data, header, cfg) ==
            WriteResult([Halting], Refused, FileState(true, content))
  {
  }

  /** The writer writes exactly when the file may be replaced, the columns are
      non-empty and of one length and the header is empty or fits. */
  lemma WrittenExactly(present: bool, content: string, data: seq<seq<string>>, header: seq<string>, cfg: Config)
    ensures WriteSpec(present, content, data, header, cfg).status == Written <==>
      (!present || cfg.overwrite) && |data| >= 1 && Rectangular(data) && (header == [] || |header| == |data|)
  {
  }

  /** Anything but a write leaves the file as it was. */
  lemma RefusalChangesNothing(present: bool, content: string, data: seq<seq<string>>, header: seq<string>, cfg: Config)
    requires WriteSpec(present, content, data, header, cfg).status != Written
    ensures WriteSpec(present, content, data, header, cfg).file == FileState(present, content)
  {
  }

  /** The existence notice always comes first; a shape error, when there is
      one, is the second and last notice. A mismatch names both lengths. */
  lemma NoticeOrder(present: bool, content: string, data: seq<seq<string>>, header: seq<string>, cfg: Config)
    ensures var r := WriteSpec(present, content, data, header, cfg);
      1 <= |r.notices| <= 2 &&
      r.notices[0] == (if present && !cfg.overwrite then Halting
                       else if present then Reusing(cfg.mode) else Creating) &&
      (r.status == Refused && !(present && !cfg.overwrite) ==>
         |r.notices| == 2 &&
         r.notices[1] == (if !Rectangular(data) then NotSameLength else HeaderMismatch(|header|, |data|))) &&
      (r.status != Refused ==> |r.notices| == 1)
  {
  }

  /** With overwrite off, a second identical call leaves the file as the first left it. */
  lemma GuardedRepeat(present: bool, content: string, data: seq<seq<string>>, header: seq<string>, cfg: Config)
    requires !cfg.overwrite
    ensures var once := WriteSpec(present, content, data, header, cfg).file;
      WriteSpec(once.present, once.content, data, header, cfg).file == once
  {
  }

  /** 'a+' keeps what the file held and writes after it; 'w' replaces it. */
  lemma ModeDecidesKeptText(present: bool, content: string, data: seq<seq<string>>, header: seq<string>, cfg: Config)
    requires WriteSpec(present, content, data, header, cfg).status == Written
    ensures var after := WriteSpec(present, content, data, header, cfg).file.content;
      (cfg.mode == Append && present ==> after == content + Serialize(header, data, cfg)) &&
      (cfg.mode == Truncate || !present ==> after == Serialize(header, data, cfg))
  {
  }

  /** One line for the header, when there is one, and one per row; provided
      no cell, name, delimiter or starter holds a newline. */
  lemma LineCount(header: seq<string>, data: seq<seq<string>>, cfg: Config)
    requires |data| >= 1 && Rectangular(data) && (header == [] || |header| == |data|)
    requires '\n' !in cfg.delimiter && '\n' !in cfg.headerStarter
    requires forall k :: 0 <= k < |header| ==> '\n' !in header[k]
    requires forall j, i :: 0 <= j < |data| && 0 <= i < |data[j]| ==> '\n' !in data[j][i]
    ensures |Lines(Serialize(header, data, cfg))| == |data[0]| + (if header == [] then 0 else 1)
  {
    var d := cfg.delimiter;
    var rows := RowsOf(data, |data[0]|);
    assert forall i :: 0 <= i < |rows| ==> rows[i] != [];
    LinesOfBody(rows, d);
    if header != [] {
      var hl := cfg.headerStarter + Line(header, d);
      PrefixedLine(cfg.headerStarter, header, d);
      LinesCons(hl, Body(rows, d));
      assert Serialize(header, data, cfg) == hl + Body(rows, d);
    } else {
      assert Serialize(header, data, cfg) == Body(rows, d);
    }
  }
}
