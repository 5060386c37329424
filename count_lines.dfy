/** The code-line counter `count_code_lines` of
    analysis_tools/count_lines/count_lines.py.

    Each line of a script is stripped and classified: blank lines, comment
    lines and lines inside a docstring are skipped, a one-line docstring is
    skipped, a line opening or closing a docstring flips the docstring flag,
    and every other line counts as code. The directory total is the sum of
    the scripts' counts, leaving out the counter's own file. */
module CountLines {
  import opened Text

  const TripleDouble: string := "\"\"\""
  const TripleSingle: string := "'''"
  const SelfName: string := "count_code_lines.py"

  /** How one stripped line is treated. */
  datatype Kind = Skip | Toggle | Code

  predicate OpensDocstring(l: string)
  {
    StartsWith(l, TripleDouble) || StartsWith(l, TripleSingle)
  }

  /** The `if`/`elif`/`else` on the line, once stripped. */
  function Classify(line: string, docstring: bool): Kind
  {
    ClassifyStripped(Strip(line), docstring)
  }

  /** The `if` condition on the stripped line `l`, in the source's order. */
  predicate Skips(l: string, docstring: bool)
  {
    l == "" || StartsWith(l, "#") || StartsWith(l, ";") || l == "\n"
    || (docstring && !OpensDocstring(l))
    || (StartsWith(l, TripleSingle) && EndsWith(l, TripleSingle) && |l| > 3)
    || (StartsWith(l, TripleDouble) && EndsWith(l, TripleDouble) && |l| > 3)
  }

  /** Skipped, then the `elif` on an opening triple quote, then code. */
  function ClassifyStripped(l: string, docstring: bool): Kind
  {
    if Skips(l, docstring) then Skip
    else if OpensDocstring(l) then Toggle
    else Code
  }

  /** The per-script counters: code lines so far and the docstring flag. */
  datatype Tally = Tally(count: nat, docstring: bool)

  const Fresh: Tally := Tally(0, false)

  function Step(t: Tally, line: string): Tally
  {
    match Classify(line, t.docstring)
    case Skip => t
    case Toggle => t.(docstring := !t.docstring)
    case Code => t.(count := t.count + 1)
  }

  function Run(t: Tally, lines: seq<string>): Tally
    decreases |lines|
  {
    if lines == [] then t else Run(Step(t, lines[0]), lines[1..])
  }

  /** A script found by the directory listing: its path and its text. */
  datatype Script = Script(path: string, content: string)

  /** The code lines of one script. */
  function ScriptCount(s: Script): nat
  {
    Run(Fresh, Lines(s.content)).count
  }

  /** The listing with its first entry at `p` removed, if there is one. */
  function Without(scripts: seq<Script>, p: string): seq<Script>
  {
    if exists k :: 0 <= k < |scripts| && scripts[k].path == p then
      var k := FirstPath(scripts, p);
      scripts[..k] + scripts[k + 1..]
    else scripts
  }

  /** The listing with the first entry at `dir/count_code_lines.py` removed, if any. */
  function Remaining(dir: string, scripts: seq<Script>): seq<Script>
  {
    Without(scripts, PathJoin(dir, SelfName))
  }

  function FirstPath(scripts: seq<Script>, p: string): (k: nat)
    requires exists k :: 0 <= k < |scripts| && scripts[k].path == p
    ensures k < |scripts| && scripts[k].path == p
    ensures forall i :: 0 <= i < k ==> scripts[i].path != p
  {
    if scripts[0].path == p then 0
    else
      assert exists k :: 0 <= k < |scripts[1..]| && scripts[1..][k].path == p by {
        var k :| 0 <= k < |scripts| && scripts[k].path == p;
        assert scripts[1..][k - 1].path == p;
      }
      1 + FirstPath(scripts[1..], p)
  }

  function Sum(scripts: seq<Script>): nat
  {
    if scripts == [] then 0 else ScriptCount(scripts[0]) + Sum(scripts[1..])
  }

  /** The total the directory run reports. */
  function DirectoryCount(dir: string, scripts: seq<Script>): nat
  {
    Sum(Remaining(dir, scripts))
  }

  // ---------------------------------------------------------------------------
  // The fold

  /** Running over `a + b` is running over `a`, then over `b`;
      the same law the column readers state for their own `Step`. */
  lemma {:induction false} RunConcat(t: Tally, a: seq<string>, b: seq<string>)
    ensures Run(t, a + b) == Run(Run(t, a), b)
    decreases |a|
  {
    if a == [] {
      assert a + b == b;
    } else {
      assert (a + b)[1..] == a[1..] + b;
      RunConcat(Step(t, a[0]), a[1..], b);
    }
  }

  lemma RunPrefix(t: Tally, lines: seq<string>, i: nat)
    requires i < |lines|
    ensures Run(t, lines[..i + 1]) == Step(Run(t, lines[..i]), lines[i])
  {
    assert lines[..i + 1] == lines[..i] + [lines[i]];
    RunConcat(t, lines[..i], [lines[i]]);
  }

  lemma {:induction false} SumConcat(a: seq<Script>, b: seq<Script>)
    ensures Sum(a + b) == Sum(a) + Sum(b)
  {
    if a == [] {
      assert a + b == b;
    } else {
      assert (a + b)[1..] == a[1..] + b;
      SumConcat(a[1..], b);
    }
  }

  // ---------------------------------------------------------------------------
  // The counter as the source writes it

  method CountScript(s: Script) returns (count: nat)
    ensures count == ScriptCount(s)
  {
    var lines := Lines(s.content);
    var docstring := false;
    count := 0;
    for i := 0 to |lines|
      invariant Run(Fresh, lines[..i]) == Tally(count, docstring)
    {
      RunPrefix(Fresh, lines, i);
      var line := Strip(lines[i]);
      if Skips(line, docstring) {
      } else if OpensDocstring(line) {
        docstring := !docstring;
      } else {
        count := count + 1;
      }
    }
    assert lines[..|lines|] == lines;
  }

  /** `list.remove` after the `in` test: drops the first entry at `p`. */
  method RemoveFirst(scripts: seq<Script>, p: string) returns (rest: seq<Script>)
    ensures rest == Without(scripts, p)
  {
    rest := scripts;
    if exists k :: 0 <= k < |scripts| && scripts[k].path == p {
      var k := 0;
      while scripts[k].path != p
        invariant 0 <= k < |scripts|
        invariant forall i :: 0 <= i < k ==> scripts[i].path != p
        invariant exists j :: k <= j < |scripts| && scripts[j].path == p
        decreases |scripts| - k
      {
        k := k + 1;
      }
      assert k == FirstPath(scripts, p);
      rest := scripts[..k] + scripts[k + 1..];
    }
  }

  /** Removes the counter's own file from the listing, then sums the scripts' counts. */
  method CountCodeLines(dir: string, listing: seq<Script>) returns (total: nat)
    ensures total == DirectoryCount(dir, listing)
  {
    var scripts := RemoveFirst(listing, PathJoin(dir, SelfName));
    total := 0;
    for n := 0 to |scripts|
      invariant total == Sum(scripts[..n])
    {
      var c := CountScript(scripts[n]);
      SumConcat(scripts[..n], [scripts[n]]);
      assert scripts[..n + 1] == scripts[..n] + [scripts[n]];
      total := total + c;
    }
    assert scripts[..|scripts|] == scripts;
  }

  // ---------------------------------------------------------------------------
  // Properties

  /** Every line adds at most one. */
  lemma {:induction false} CountBound(t: Tally, lines: seq<string>)
    ensures t.count <= Run(t, lines).count <= t.count + |lines|
    decreases |lines|
  {
    if lines != [] {
      CountBound(Step(t, lines[0]), lines[1..]);
    }
  }

  lemma ScriptCountBound(s: Script)
    ensures ScriptCount(s) <= |Lines(s.content)|
  {
    CountBound(Fresh, Lines(s.content));
  }

  /** A stripped line is never "\n", so that test never fires. */
  lemma NewlineTestNeverFires(line: string)
    ensures Strip(line) != "\n"
  {
    assert '\n' in Whitespace;
  }

  /** Blank and comment lines never count, whatever the docstring state. */
  lemma BlankAndCommentSkipped(line: string, docstring: bool)
    requires var l := Strip(line); l == "" || StartsWith(l, "#") || StartsWith(l, ";")
    ensures Classify(line, docstring) == Skip
  {
  }

  /** Inside a docstring only a line opening with a triple quote can matter. */
  lemma InsideDocstring(line: string)
    requires !OpensDocstring(Strip(line))
    ensures Classify(line, true) == Skip
  {
  }

  /** A line that is one triple quote of either style, indented or not,
      flips the flag. */
  lemma BareTripleQuoteToggles(line: string, docstring: bool)
    requires Strip(line) == TripleDouble || Strip(line) == TripleSingle
    ensures Classify(line, docstring) == Toggle
  {
    TripleQuoteToggles(Strip(line), docstring);
  }

  lemma TripleQuoteToggles(l: string, docstring: bool)
    requires l == TripleDouble || l == TripleSingle
    ensures ClassifyStripped(l, docstring) == Toggle
  {
    assert |l| == 3 && (l[0] == '"' || l[0] == '\'');
    assert l[..|l|] == l;
    assert OpensDocstring(l);
    assert !StartsWith(l, "#") by { assert l[..1][0] == l[0]; }
    assert !StartsWith(l, ";") by { assert l[..1][0] == l[0]; }
  }

  /** A docstring opened and closed on one line is skipped and leaves the flag as it was. */
  lemma OneLineDocstring(line: string, t: Tally)
    requires var l := Strip(line);
      |l| > 3 && ((StartsWith(l, TripleDouble) && EndsWith(l, TripleDouble)) ||
                  (StartsWith(l, TripleSingle) && EndsWith(l, TripleSingle)))
    ensures Step(t, line) == t
  {
    assert Skips(Strip(line), t.docstring);
  }

  /** Code lines: stripped, non-empty, not a comment and not opening a docstring. */
  predicate IsCode(line: string)
  {
    var l := Strip(line);
    l != "" && !StartsWith(l, "#") && !StartsWith(l, ";") && !OpensDocstring(l)
  }

  function CodeLines(lines: seq<string>): (r: seq<string>)
    ensures |r| <= |lines|
  {
    if lines == [] then []
    else (if IsCode(lines[0]) then [lines[0]] else []) + CodeLines(lines[1..])
  }

  /** Outside any docstring, the count is the number of code lines. */
  lemma {:induction false} NoDocstringIsFilter(t: Tally, lines: seq<string>)
    requires !t.docstring
    requires forall k :: 0 <= k < |lines| ==> !OpensDocstring(Strip(lines[k]))
    ensures Run(t, lines) == Tally(t.count + |CodeLines(lines)|, false)
    decreases |lines|
  {
    if lines != [] {
      NoDocstringIsFilter(Step(t, lines[0]), lines[1..]);
    }
  }

  /** Lines inside an open docstring that never close it count nothing. */
  lemma {:induction false} InsideDocstringCountsNothing(t: Tally, lines: seq<string>)
    requires t.docstring
    requires forall k :: 0 <= k < |lines| ==> !OpensDocstring(Strip(lines[k]))
    ensures Run(t, lines) == t
    decreases |lines|
  {
    if lines != [] {
      InsideDocstringCountsNothing(Step(t, lines[0]), lines[1..]);
    }
  }

  /** The total is at most the number of lines in all scripts. */
  lemma {:induction false} SumBound(scripts: seq<Script>)
    ensures Sum(scripts) <= LineTotal(scripts)
  {
    if scripts != [] {
      ScriptCountBound(scripts[0]);
      SumBound(scripts[1..]);
    }
  }

  function LineTotal(scripts: seq<Script>): nat
  {
    if scripts == [] then 0 else |Lines(scripts[0].content)| + LineTotal(scripts[1..])
  }

  /** The counter's own file adds nothing to the total when it is listed once;
      every other script is counted. */
  lemma SelfExcluded(dir: string, before: seq<Script>, self: Script, after: seq<Script>)
    requires self.path == PathJoin(dir, SelfName)
    requires forall k :: 0 <= k < |before| ==> before[k].path != self.path
    ensures DirectoryCount(dir, before + [self] + after) == Sum(before) + Sum(after)
  {
    var all := before + [self] + after;
    assert all[|before|].path == self.path;
    var k := FirstPath(all, self.path);
    assert k == |before|;
    assert all[..k] == before;
    assert all[k + 1..] == after;
    SumConcat(before, after);
  }

  /** Without the counter's file in the listing the total is the plain sum. */
  lemma NoSelfListed(dir: string, scripts: seq<Script>)
    requires forall k :: 0 <= k < |scripts| ==> scripts[k].path != PathJoin(dir, SelfName)
    ensures DirectoryCount(dir, scripts) == Sum(scripts)
  {
  }
}
