/** `make_timestamp_dir` of analysis_tools/dir/make_timestamp_dir.py.

    The directory name is the date as YYYY.MM.DD, month and day padded to
    two digits. If `dest/YYYY.MM.DD/` does not exist it is created;
    otherwise the first of `dest/YYYY.MM.DD_1/` to `dest/YYYY.MM.DD_49/`
    that does not exist is created. The path created is returned; when all
    are taken nothing is created and None is returned. The date is a
    parameter here, in place of the local clock. */
module TimestampDir {
  import opened Text

  /** `'0' + s` for a one-character numeral. */
  function Pad(s: string): string
  {
    if |s| == 1 then "0" + s else s
  }

  function DirName(year: nat, month: nat, day: nat): string
  {
    NatToString(year) + "." + Pad(NatToString(month)) + "." + Pad(NatToString(day))
  }

  /** Suffixes tried after the plain name: `range(1, 50)`. */
  const LastSuffix: nat := 49

  /** The last suffix the doc comment's "1-50" promises. */
  const IntendedLastSuffix: nat := 50

  function Plain(base: string): string
  {
    base + "/"
  }

  function Numbered(base: string, num: nat): string
  {
    base + "_" + NatToString(num) + "/"
  }

  /** The first free numbered path from `num` up to `last`. */
  function FirstFree(dirs: set<string>, base: string, num: nat, last: nat): (r: Option<string>)
    requires num >= 1
    ensures r.Some? ==> r.value !in dirs
    decreases last + 1 - num
  {
    if num > last then None
    else if Numbered(base, num) !in dirs then Some(Numbered(base, num))
    else FirstFree(dirs, base, num + 1, last)
  }

  /** The plain path if free, else the first free numbered one up to `last`. */
  function ChoiceUpTo(dirs: set<string>, base: string, last: nat): Option<string>
  {
    if Plain(base) !in dirs then Some(Plain(base)) else FirstFree(dirs, base, 1, last)
  }

  /** The path the call creates and returns, if any. */
  function Choice(dirs: set<string>, base: string): Option<string>
  {
    ChoiceUpTo(dirs, base, LastSuffix)
  }

  /** The path the call would create if it tried suffixes 1 to 50. */
  function ChoiceIntended(dirs: set<string>, base: string): Option<string>
  {
    ChoiceUpTo(dirs, base, IntendedLastSuffix)
  }

  /** The existing directories; `mkdir` adds one. */
  class DirTree {
    var dirs: set<string>

    constructor (dirs: set<string>)
      ensures this.dirs == dirs
    {
      this.dirs := dirs;
    }

    method MakeDir(p: string)
      requires p !in dirs
      modifies this
      ensures dirs == old(dirs) + {p}
    {
      dirs := dirs + {p};
    }
  }

  method MakeTimestampDir(t: DirTree, dest: string, year: nat, month: nat, day: nat)
    returns (r: Option<string>)
    modifies t
    ensures r == Choice(old(t.dirs), PathJoin(dest, DirName(year, month, day)))
    ensures t.dirs == if r.Some? then old(t.dirs) + {r.value} else old(t.dirs)
  {
    var y := NatToString(year);
    var m := NatToString(month);
    var d := NatToString(day);
    if |m| == 1 {
      m := "0" + m;
    }
    if |d| == 1 {
      d := "0" + d;
    }
    var timeDir := y + "." + m + "." + d;
    var path := PathJoin(dest, timeDir);
    if path + "/" !in t.dirs {
      t.MakeDir(path + "/");
      return Some(path + "/");
    }
    for num := 1 to 50
      invariant t.dirs == old(t.dirs)
      invariant FirstFree(t.dirs, path, num, LastSuffix) == FirstFree(t.dirs, path, 1, LastSuffix)
    {
      var candidate := path + "_" + NatToString(num) + "/";
      if candidate !in t.dirs {
        t.MakeDir(candidate);
        return Some(candidate);
      }
    }
    return None;
  }

  // ---------------------------------------------------------------------------
  // Properties

  /** A month or day below 100 becomes exactly two digits; one of ten or more
      is left as it is. */
  lemma PadTwoDigits(n: nat)
    requires n < 100
    ensures |Pad(NatToString(n))| == 2
    ensures forall k :: 0 <= k < 2 ==> '0' <= Pad(NatToString(n))[k] <= '9'
    ensures n >= 10 ==> Pad(NatToString(n)) == NatToString(n)
  {
    if n >= 10 {
      assert NatToString(n) == NatToString(n / 10) + [Digit(n % 10)];
    }
  }

  lemma FourDigits(year: nat)
    requires 1000 <= year < 10000
    ensures |NatToString(year)| == 4
  {
    assert |NatToString(year / 1000)| == 1;
    assert |NatToString(year / 100)| == 2 by {
      assert year / 100 / 10 == year / 1000;
    }
    assert |NatToString(year / 10)| == 3 by {
      assert year / 10 / 10 == year / 100;
    }
  }

  /** Different suffixes name different directories. */
  lemma NumberedDistinct(base: string, a: nat, b: nat)
    requires a != b
    ensures Numbered(base, a) != Numbered(base, b)
  {
    var p := base + "_";
    var x, y := Numbered(base, a), Numbered(base, b);
    assert x[|p|..|x| - 1] == NatToString(a);
    assert y[|p|..|y| - 1] == NatToString(b);
    NatToStringInjective(a, b);
  }

  /** A four-digit year gives ten characters with dots at positions 4 and 7. */
  lemma NameShape(year: nat, month: nat, day: nat)
    requires 1000 <= year < 10000 && month < 100 && day < 100
    ensures var s := DirName(year, month, day);
      |s| == 10 && s[4] == '.' && s[7] == '.' &&
      forall k :: 0 <= k < 10 && k != 4 && k != 7 ==> '0' <= s[k] <= '9'
  {
    var y := NatToString(year);
    var m := Pad(NatToString(month));
    var d := Pad(NatToString(day));
    FourDigits(year);
    PadTwoDigits(month);
    PadTwoDigits(day);
    var s := y + "." + m + "." + d;
    assert s == DirName(year, month, day);
    assert forall k :: 0 <= k < 4 ==> s[k] == y[k];
    assert forall k :: 5 <= k < 7 ==> s[k] == m[k - 5];
    assert forall k :: 8 <= k < 10 ==> s[k] == d[k - 8];
  }

  lemma Example()
    ensures DirName(2016, 1, 5) == "2016.01.05"
  {
    assert NatToString(2016) == "2016" by {
      assert NatToString(2) == "2";
      assert NatToString(20) == "20";
      assert NatToString(201) == "201";
    }
  }

  /** The chosen path did not exist. */
  lemma ChoiceIsFresh(dirs: set<string>, base: string)
    ensures Choice(dirs, base).Some? ==> Choice(dirs, base).value !in dirs
  {
  }

  /** A numbered path is chosen only when the plain one and every smaller
      suffix are taken; the suffix is between `num` and `last`. */
  lemma {:induction false} FirstFreeIsFirst(dirs: set<string>, base: string, num: nat, last: nat)
    requires num >= 1
    requires FirstFree(dirs, base, num, last).Some?
    ensures exists n :: (num <= n <= last && FirstFree(dirs, base, num, last) == Some(Numbered(base, n)) &&
      forall k :: num <= k < n ==> Numbered(base, k) in dirs)
    decreases last + 1 - num
  {
    if Numbered(base, num) in dirs {
      FirstFreeIsFirst(dirs, base, num + 1, last);
    }
  }

  /** None exactly when every suffix from `num` to `last` is taken. */
  lemma {:induction false} FirstFreeNone(dirs: set<string>, base: string, num: nat, last: nat)
    requires num >= 1
    ensures FirstFree(dirs, base, num, last).None? <==> forall k :: num <= k <= last ==> Numbered(base, k) in dirs
    decreases last + 1 - num
  {
    if num <= last {
      FirstFreeNone(dirs, base, num + 1, last);
    }
  }

  /** Nothing is created exactly when the plain path and all of `_1` to `_49` exist. */
  lemma NoneWhenAllTaken(dirs: set<string>, base: string)
    ensures Choice(dirs, base).None? <==>
      Plain(base) in dirs && forall k :: 1 <= k <= LastSuffix ==> Numbered(base, k) in dirs
  {
    FirstFreeNone(dirs, base, 1, LastSuffix);
  }

  /** The plain path, when free, is chosen over any numbered one; otherwise
      the smallest free suffix from 1 to 49 is. */
  lemma ChoiceIsMinimal(dirs: set<string>, base: string)
    ensures Plain(base) !in dirs ==> Choice(dirs, base) == Some(Plain(base))
    ensures Plain(base) in dirs && Choice(dirs, base).Some? ==>
      exists n :: (1 <= n <= LastSuffix && Choice(dirs, base) == Some(Numbered(base, n)) &&
        forall k :: 1 <= k < n ==> Numbered(base, k) in dirs)
  {
    if Plain(base) in dirs && Choice(dirs, base).Some? {
      FirstFreeIsFirst(dirs, base, 1, LastSuffix);
    }
  }

  // ---------------------------------------------------------------------------
  // The fiftieth suffix

  /** As written, `_50` is never tried: with the plain path and `_1` to `_49`
      taken, nothing is created even when `_50` is free. */
  lemma FiftyNeverTried(dirs: set<string>, base: string)
    requires Plain(base) in dirs && forall k :: 1 <= k <= LastSuffix ==> Numbered(base, k) in dirs
    requires Numbered(base, 50) !in dirs
    ensures Choice(dirs, base) == None
    ensures ChoiceIntended(dirs, base) == Some(Numbered(base, 50))
  {
    NoneWhenAllTaken(dirs, base);
    PastTaken(dirs, base, 1, 50, IntendedLastSuffix);
  }

  /** Taken suffixes from `num` up to `upto` are passed over. */
  lemma {:induction false} PastTaken(dirs: set<string>, base: string, num: nat, upto: nat, last: nat)
    requires 1 <= num <= upto <= last + 1
    requires forall k :: num <= k < upto ==> Numbered(base, k) in dirs
    ensures FirstFree(dirs, base, num, last) == FirstFree(dirs, base, upto, last)
    decreases upto - num
  {
    if num < upto {
      PastTaken(dirs, base, num + 1, upto, last);
    }
  }

  /** Trying suffixes 1 to 50, nothing is created exactly when the plain
      path and all of `_1` to `_50` exist; otherwise the choice is fresh and
      the smallest free one. */
  lemma IntendedNoneWhenAllTaken(dirs: set<string>, base: string)
    ensures ChoiceIntended(dirs, base).None? <==>
      Plain(base) in dirs && forall k :: 1 <= k <= IntendedLastSuffix ==> Numbered(base, k) in dirs
    ensures ChoiceIntended(dirs, base).Some? ==> ChoiceIntended(dirs, base).value !in dirs
    ensures Plain(base) in dirs && ChoiceIntended(dirs, base).Some? ==>
      exists n :: (1 <= n <= IntendedLastSuffix && ChoiceIntended(dirs, base) == Some(Numbered(base, n)) &&
        forall k :: 1 <= k < n ==> Numbered(base, k) in dirs)
  {
    FirstFreeNone(dirs, base, 1, IntendedLastSuffix);
    if Plain(base) in dirs && ChoiceIntended(dirs, base).Some? {
      FirstFreeIsFirst(dirs, base, 1, IntendedLastSuffix);
    }
  }
}
