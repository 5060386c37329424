/** Text conventions shared by the column readers and writers, the line counter
    and the directory namer: character classes, tokenising a line into fields,
    laying a row of cells out as one line, splitting a file's text into lines,
    trimming whitespace and decimal numerals. */
module Text {

  datatype Option<T> = None | Some(value: T)

  /** The characters a regular-expression `\s` matches in ASCII text. */
  const Whitespace: set<char> := {' ', '\t', '\n', '\r', '\U{0B}', '\U{0C}'}

  predicate SeparatorFree(s: string, seps: set<char>)
  {
    forall i :: 0 <= i < |s| ==> s[i] !in seps
  }

  predicate AllSeparators(s: string, seps: set<char>)
  {
    forall i :: 0 <= i < |s| ==> s[i] in seps
  }

  // ---------------------------------------------------------------------------
  // Tokenising

  /** The pieces a split on a one-character separator class yields: the text
      between consecutive separators, empty pieces included. */
  function Split(s: string, seps: set<char>): (r: seq<string>)
    ensures |r| >= 1
    ensures forall k :: 0 <= k < |r| ==> SeparatorFree(r[k], seps)
  {
    if s == [] then [""]
    else
      var rest := Split(s[1..], seps);
      if s[0] in seps then [""] + rest
      else [[s[0]] + rest[0]] + rest[1..]
  }

  /** The pieces that are not empty, in their order. */
  function NonEmpty(xs: seq<string>): (r: seq<string>)
    ensures |r| <= |xs|
    ensures forall k :: 0 <= k < |r| ==> r[k] != "" && r[k] in xs
  {
    if xs == [] then []
    else if xs[0] == "" then NonEmpty(xs[1..])
    else [xs[0]] + NonEmpty(xs[1..])
  }

  /** The fields of a line: maximal runs of non-separator characters. */
  function Tokens(s: string, seps: set<char>): (r: seq<string>)
  {
    NonEmpty(Split(s, seps))
  }

  lemma {:induction false} NonEmptyConcat(a: seq<string>, b: seq<string>)
    ensures NonEmpty(a + b) == NonEmpty(a) + NonEmpty(b)
  {
    if a == [] {
      assert a + b == b;
    } else {
      assert (a + b)[1..] == a[1..] + b;
      NonEmptyConcat(a[1..], b);
    }
  }

  lemma {:induction false} NonEmptyOfNonEmpty(xs: seq<string>)
    requires "" !in xs
    ensures NonEmpty(xs) == xs
  {
    if xs != [] {
      assert "" !in xs[1..];
      NonEmptyOfNonEmpty(xs[1..]);
    }
  }

  /** Dropping one empty piece does not change the non-empty pieces. */
  lemma NonEmptyDropEmpty(xs: seq<string>, k: nat)
    requires k < |xs| && xs[k] == ""
    ensures NonEmpty(xs[..k] + xs[k + 1..]) == NonEmpty(xs)
  {
    assert xs == xs[..k] + ([xs[k]] + xs[k + 1..]);
    NonEmptyConcat(xs[..k], [xs[k]] + xs[k + 1..]);
    NonEmptyConcat(xs[..k], xs[k + 1..]);
  }

  /** Index of the first occurrence of `x`, as a list's `remove` finds it. */
  function FirstIndex(xs: seq<string>, x: string): (k: nat)
    requires x in xs
    ensures k < |xs| && xs[k] == x
    ensures forall j :: 0 <= j < k ==> xs[j] != x
  {
    if xs[0] == x then 0 else 1 + FirstIndex(xs[1..], x)
  }

  /** Removes empty strings one at a time, each time the first one, until none is left. */
  method RemoveEmpty(pieces: seq<string>) returns (toks: seq<string>)
    ensures toks == NonEmpty(pieces)
  {
    toks := pieces;
    while "" in toks
      invariant NonEmpty(toks) == NonEmpty(pieces)
      decreases |toks|
    {
      var k := FirstIndex(toks, "");
      NonEmptyDropEmpty(toks, k);
      toks := toks[..k] + toks[k + 1..];
    }
    NonEmptyOfNonEmpty(toks);
  }

  /** Every field is non-empty and holds no separator; no field is empty. */
  lemma TokensShape(s: string, seps: set<char>)
    ensures forall k :: 0 <= k < |Tokens(s, seps)| ==>
      Tokens(s, seps)[k] != "" && SeparatorFree(Tokens(s, seps)[k], seps)
  {
    var r := Tokens(s, seps);
    forall k | 0 <= k < |r| ensures r[k] != "" && SeparatorFree(r[k], seps) {
      assert r[k] in Split(s, seps);
    }
  }

  lemma {:induction false} SplitAtSeparator(x: string, c: char, y: string, seps: set<char>)
    requires c in seps
    ensures Split(x + [c] + y, seps) == Split(x, seps) + Split(y, seps)
  {
    if x == [] {
      assert x + [c] + y == [c] + y;
      assert ([c] + y)[1..] == y;
    } else {
      assert (x + [c] + y)[1..] == x[1..] + [c] + y;
      SplitAtSeparator(x[1..], c, y, seps);
    }
  }

  lemma {:induction false} SplitAtom(x: string, seps: set<char>)
    requires SeparatorFree(x, seps)
    ensures Split(x, seps) == [x]
  {
    if x != [] {
      SplitAtom(x[1..], seps);
      assert [x[0]] + x[1..] == x;
    }
  }

  /** A separator cuts a text into the fields before it and the fields after it. */
  lemma TokensAtSeparator(x: string, c: char, y: string, seps: set<char>)
    requires c in seps
    ensures Tokens(x + [c] + y, seps) == Tokens(x, seps) + Tokens(y, seps)
  {
    SplitAtSeparator(x, c, y, seps);
    NonEmptyConcat(Split(x, seps), Split(y, seps));
  }

  lemma TokensOfNothing(seps: set<char>)
    ensures Tokens([], seps) == []
  {
    assert Split([], seps) == [""];
    assert NonEmpty([""]) == NonEmpty([]);
  }

  /** A run of separators in front of a text adds no field. */
  lemma {:induction false} LeadingRun(w: string, y: string, seps: set<char>)
    requires AllSeparators(w, seps)
    ensures Tokens(w + y, seps) == Tokens(y, seps)
  {
    if w != [] {
      assert w + y == [] + [w[0]] + (w[1..] + y);
      TokensAtSeparator([], w[0], w[1..] + y, seps);
      TokensOfNothing(seps);
      LeadingRun(w[1..], y, seps);
    } else {
      assert w + y == y;
    }
  }

  /** A run of separators, however long, cuts the same way. */
  lemma TokensAtRun(x: string, d: string, y: string, seps: set<char>)
    requires d != [] && AllSeparators(d, seps)
    ensures Tokens(x + d + y, seps) == Tokens(x, seps) + Tokens(y, seps)
  {
    assert x + d + y == x + [d[0]] + (d[1..] + y);
    TokensAtSeparator(x, d[0], d[1..] + y, seps);
    LeadingRun(d[1..], y, seps);
  }

  lemma TokensAtom(x: string, seps: set<char>)
    requires x != [] && SeparatorFree(x, seps)
    ensures Tokens(x, seps) == [x]
  {
    SplitAtom(x, seps);
  }

  // ---------------------------------------------------------------------------
  // Laying cells out as a line

  /** `cells` joined by `d` and closed by a newline, built the way the writers
      build it: each cell is followed by `d`, the last one by "\n". */
  function Line(cells: seq<string>, d: string): string
  {
    if cells == [] then ""
    else if |cells| == 1 then cells[0] + "\n"
    else cells[0] + d + Line(cells[1..], d)
  }

  /** The text of position `j` onwards: cell `j`, what follows it, and the rest. */
  lemma LineFrom(cells: seq<string>, d: string, j: nat)
    requires j < |cells|
    ensures Line(cells[j..], d) ==
      cells[j] + (if j == |cells| - 1 then "\n" else d) + Line(cells[j + 1..], d)
  {
    assert cells[j..][1..] == cells[j + 1..];
  }

  /** A line reads back as its cells when the delimiter is a run of separators,
      the newline is a separator and no cell is empty or holds a separator. */
  lemma {:induction false} TokensOfLine(cells: seq<string>, d: string, seps: set<char>)
    requires '\n' in seps && d != [] && AllSeparators(d, seps)
    requires forall k :: 0 <= k < |cells| ==> cells[k] != "" && SeparatorFree(cells[k], seps)
    ensures Tokens(Line(cells, d), seps) == cells
  {
    if cells == [] {
    } else if |cells| == 1 {
      assert cells[0] + "\n" == cells[0] + ['\n'] + [];
      TokensAtSeparator(cells[0], '\n', [], seps);
      TokensAtom(cells[0], seps);
    } else {
      TokensAtRun(cells[0], d, Line(cells[1..], d), seps);
      TokensAtom(cells[0], seps);
      TokensOfLine(cells[1..], d, seps);
    }
  }

  /** A "#" written straight before the line is glued to the first cell. */
  lemma GluedPrefix(p: string, cells: seq<string>, d: string)
    requires cells != []
    ensures p + Line(cells, d) == Line([p + cells[0]] + cells[1..], d)
  {
    var g := [p + cells[0]] + cells[1..];
    assert g[1..] == cells[1..];
  }

  lemma {:induction false} LineNoNewline(cells: seq<string>, d: string)
    requires '\n' !in d
    requires forall k :: 0 <= k < |cells| ==> '\n' !in cells[k]
    ensures cells != [] ==> NewlineTerminated(Line(cells, d))
    ensures cells == [] ==> Line(cells, d) == ""
  {
    if |cells| > 1 {
      LineNoNewline(cells[1..], d);
      var t := Line(cells[1..], d);
      assert cells[0] + d + t == (cells[0] + d) + t;
    }
  }

  /** A line with a newline-free prefix is still one line. */
  lemma PrefixedLine(p: string, cells: seq<string>, d: string)
    requires '\n' !in p && '\n' !in d && cells != []
    requires forall k :: 0 <= k < |cells| ==> '\n' !in cells[k]
    ensures NewlineTerminated(p + Line(cells, d))
  {
    LineNoNewline(cells, d);
    var t := Line(cells, d);
    assert (p + t)[..|p + t| - 1] == p + t[..|t| - 1];
  }

  /** One text per row, each laid out by `Line`, one after the other. */
  function Body(rows: seq<seq<string>>, d: string): string
  {
    if rows == [] then "" else Line(rows[0], d) + Body(rows[1..], d)
  }

  lemma {:induction false} BodyConcat(a: seq<seq<string>>, b: seq<seq<string>>, d: string)
    ensures Body(a + b, d) == Body(a, d) + Body(b, d)
  {
    if a == [] {
      assert a + b == b;
    } else {
      assert (a + b)[1..] == a[1..] + b;
      BodyConcat(a[1..], b, d);
    }
  }

  lemma BodySnoc(rows: seq<seq<string>>, r: seq<string>, d: string)
    ensures Body(rows + [r], d) == Body(rows, d) + Line(r, d)
  {
    BodyConcat(rows, [r], d);
    assert Body([r], d) == Line(r, d) + Body([], d);
  }

  // ---------------------------------------------------------------------------
  // Splitting a file's text into lines

  /** A single line as a file yields it: ends with its only newline. */
  predicate NewlineTerminated(l: string)
  {
    l != [] && l[|l| - 1] == '\n' && '\n' !in l[..|l| - 1]
  }

  /** Length of the first line, newline included, or of the whole text if it has none. */
  function FirstLineLength(s: string): (k: nat)
    ensures s != [] ==> 1 <= k <= |s|
    ensures s == [] ==> k == 0
  {
    if s == [] then 0 else if s[0] == '\n' then 1 else 1 + FirstLineLength(s[1..])
  }

  /** The lines that iterating over a text file yields: each ends with its
      newline, except a last line that has none. */
  function Lines(s: string): (r: seq<string>)
    decreases |s|
  {
    if s == [] then []
    else
      var k := FirstLineLength(s);
      [s[..k]] + Lines(s[k..])
  }

  lemma {:induction false} FirstLineOf(l: string, rest: string)
    requires NewlineTerminated(l)
    ensures FirstLineLength(l + rest) == |l|
  {
    if |l| > 1 {
      assert l[0] != '\n' by { assert l[0] == l[..|l| - 1][0]; }
      var t := l[1..];
      assert t[..|t| - 1] == l[..|l| - 1][1..];
      assert (l + rest)[1..] == t + rest;
      FirstLineOf(t, rest);
    }
  }

  lemma LinesCons(l: string, rest: string)
    requires NewlineTerminated(l)
    ensures Lines(l + rest) == [l] + Lines(rest)
  {
    FirstLineOf(l, rest);
    assert (l + rest)[..|l|] == l;
    assert (l + rest)[|l|..] == rest;
  }

  /** Lines written one after the other are read back one by one. */
  lemma {:induction false} LinesOfBody(rows: seq<seq<string>>, d: string)
    requires '\n' !in d
    requires forall i :: 0 <= i < |rows| ==> rows[i] != []
    requires forall i, k :: 0 <= i < |rows| && 0 <= k < |rows[i]| ==> '\n' !in rows[i][k]
    ensures Lines(Body(rows, d)) == seq(|rows|, i requires 0 <= i < |rows| => Line(rows[i], d))
  {
    if rows != [] {
      LineNoNewline(rows[0], d);
      LinesCons(Line(rows[0], d), Body(rows[1..], d));
      LinesOfBody(rows[1..], d);
    }
  }

  /** Text appended after a newline starts new lines: the old lines are kept as they were. */
  lemma {:induction false} LinesAppend(a: string, b: string)
    requires a == [] || a[|a| - 1] == '\n'
    ensures Lines(a + b) == Lines(a) + Lines(b)
    decreases |a|
  {
    if a != [] {
      var k := FirstLineLength(a);
      FirstLineWithin(a, b);
      AppendSlices(a, b, k);
      LinesAppend(a[k..], b);
    } else {
      assert a + b == b;
    }
  }

  lemma AppendSlices(a: string, b: string, k: nat)
    requires k <= |a|
    ensures (a + b)[..k] == a[..k] && (a + b)[k..] == a[k..] + b
    ensures a[k..] != [] ==> a[k..][|a[k..]| - 1] == a[|a| - 1]
  {
  }

  lemma {:induction false} FirstLineWithin(a: string, b: string)
    requires a != [] && a[|a| - 1] == '\n'
    ensures FirstLineLength(a + b) == FirstLineLength(a)
  {
    if a[0] != '\n' {
      assert |a| > 1;
      assert (a + b)[1..] == a[1..] + b;
      FirstLineWithin(a[1..], b);
    }
  }

  // ---------------------------------------------------------------------------
  // Trimming and prefixes

  predicate StartsWith(s: string, p: string)
  {
    |p| <= |s| && s[..|p|] == p
  }

  predicate EndsWith(s: string, p: string)
  {
    |p| <= |s| && s[|s| - |p|..] == p
  }

  /** Nothing but whitespace. */
  predicate Blank(s: string)
  {
    s == [] || (s[0] in Whitespace && Blank(s[1..]))
  }

  lemma {:induction false} BlankConcat(a: string, b: string)
    ensures Blank(a + b) <==> Blank(a) && Blank(b)
  {
    if a == [] {
      assert a + b == b;
    } else {
      assert (a + b)[1..] == a[1..] + b;
      BlankConcat(a[1..], b);
    }
  }

  /** The number of whitespace characters `s` starts with. */
  function LeadingBlanks(s: string): (k: nat)
    ensures k <= |s| && Blank(s[..k])
    ensures k < |s| ==> s[k] !in Whitespace
  {
    if s != [] && s[0] in Whitespace then
      var k := 1 + LeadingBlanks(s[1..]);
      assert s[..k][1..] == s[1..][..k - 1];
      k
    else 0
  }

  /** The number of whitespace characters `s` ends with. */
  function TrailingBlanks(s: string): (k: nat)
    ensures k <= |s| && Blank(s[|s| - k..])
    ensures k < |s| ==> s[|s| - k - 1] !in Whitespace
  {
    if s != [] && s[|s| - 1] in Whitespace then
      var k := TrailingBlanks(s[..|s| - 1]);
      BlankSuffix(s, k);
      k + 1
    else 0
  }

  /** One more whitespace character at the end keeps a blank suffix blank. */
  lemma BlankSuffix(s: string, k: nat)
    requires s != [] && s[|s| - 1] in Whitespace
    requires k <= |s| - 1 && Blank(s[..|s| - 1][|s| - 1 - k..])
    ensures Blank(s[|s| - (k + 1)..])
  {
    var t := s[..|s| - 1];
    var c := [s[|s| - 1]];
    assert s[|s| - (k + 1)..] == t[|t| - k..] + c;
    BlankConcat(t[|t| - k..], c);
    assert Blank(c) by { assert c[1..] == []; }
  }

  /** A string's `strip()`: the slice of `s` left once the whitespace at both
      ends is removed; it is empty exactly when `s` is all whitespace. */
  function Strip(s: string): (r: string)
    ensures |r| <= |s|
    ensures r != [] ==> r[0] !in Whitespace && r[|r| - 1] !in Whitespace
    ensures r == [] <==> Blank(s)
  {
    var i := LeadingBlanks(s);
    var t := s[i..];
    var n := |t| - TrailingBlanks(t);
    StripEmpty(s, i, t, n);
    t[..n]
  }

  /** What is left is empty exactly when `s` is all whitespace. */
  lemma StripEmpty(s: string, i: nat, t: string, n: nat)
    requires i <= |s| && Blank(s[..i]) && (i < |s| ==> s[i] !in Whitespace) && t == s[i..]
    requires n <= |t| && Blank(t[n..]) && (n > 0 ==> t[n - 1] !in Whitespace)
    ensures t[..n] == [] <==> Blank(s)
  {
    Slices(s, i, n);
    assert t != [] ==> t[0] == s[i];
    EmptyExactlyWhenBlank(s[..i], t, t[..n]);
  }

  /** `r` is one slice of `s`, with nothing but whitespace before it and after it. */
  predicate TrimmedFrom(s: string, r: string)
  {
    exists i :: 0 <= i <= |s| - |r| && r == s[i..i + |r|] && Blank(s[..i]) && Blank(s[i + |r|..])
  }

  /** `strip()` keeps one slice of `s` and cuts off only whitespace. */
  lemma StripIsSlice(s: string)
    ensures TrimmedFrom(s, Strip(s))
  {
    var i := LeadingBlanks(s);
    var t := s[i..];
    var n := |t| - TrailingBlanks(t);
    assert Strip(s) == t[..n];
    SliceWitness(s, i, t, n);
  }

  lemma SliceWitness(s: string, i: nat, t: string, n: nat)
    requires i <= |s| && t == s[i..] && n <= |t| && Blank(s[..i]) && Blank(t[n..])
    ensures TrimmedFrom(s, t[..n])
  {
    Slices(s, i, n);
  }

  /** Whitespace, then `l` starting with something else: what is kept of `l`
      is empty exactly when the whole is blank. */
  lemma EmptyExactlyWhenBlank(p: string, l: string, r: string)
    requires Blank(p)
    requires l != [] ==> l[0] !in Whitespace
    requires |r| <= |l| && r == l[..|r|] && Blank(l[|r|..])
    ensures r == [] <==> Blank(p + l)
  {
    BlankConcat(p, l);
    if r != [] {
      assert l[0] == r[0];
    } else {
      assert l[|r|..] == l;
    }
  }

  lemma Slices(s: string, i: nat, n: nat)
    requires i + n <= |s|
    ensures s[i..][..n] == s[i..i + n] && s[i..][n..] == s[i + n..] && s == s[..i] + s[i..]
  {
  }

  /** A string with no whitespace at either end is its own `strip()`. */
  lemma StripUnpadded(s: string)
    requires s != [] && s[0] !in Whitespace && s[|s| - 1] !in Whitespace
    ensures Strip(s) == s
  {
  }

  /** `os.path.join` of two parts: an absolute second part replaces the
      first; otherwise a "/" is put between them unless the first is empty or
      already ends in one. */
  function PathJoin(a: string, b: string): string
  {
    if StartsWith(b, "/") then b
    else if a == "" || EndsWith(a, "/") then a + b
    else a + "/" + b
  }

  // ---------------------------------------------------------------------------
  // Decimal numerals

  function Digit(n: nat): (c: char)
    requires n < 10
    ensures '0' <= c <= '9'
  {
    (n + '0' as int) as char
  }

  /** The number a string of decimal digits denotes. */
  function DecimalValue(r: string): nat
    requires forall k :: 0 <= k < |r| ==> '0' <= r[k] <= '9'
  {
    if r == [] then 0
    else 10 * DecimalValue(r[..|r| - 1]) + (r[|r| - 1] as int - '0' as int)
  }

  /** A natural number's decimal numeral, as `str` writes it: its digits
      denote `n`, and there is no leading zero. */
  function NatToString(n: nat): (r: string)
    ensures |r| >= 1
    ensures forall k :: 0 <= k < |r| ==> '0' <= r[k] <= '9'
    ensures DecimalValue(r) == n
    ensures r[0] != '0' || n == 0
    ensures (|r| == 1) == (n < 10)
  {
    if n < 10 then [Digit(n)]
    else
      var front := NatToString(n / 10);
      var r := front + [Digit(n % 10)];
      assert r[..|r| - 1] == front;
      r
  }

  /** Different numbers have different numerals. */
  lemma NatToStringInjective(a: nat, b: nat)
    ensures NatToString(a) == NatToString(b) <==> a == b
  {
  }
}
