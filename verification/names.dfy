/**
 * `load_group_names`: the built-in list of group names, or the cleaned
 * lines of a names file.
 */
module Names {
  import opened Wrappers

  /**
   * The names looked up when no names file is given, in their listed order.
   * The list is written in four parts so that facts about it can be proved
   * part by part.
   */
  const DefaultGroupNames: seq<string> := DefaultNamesA + DefaultNamesB + DefaultNamesC + DefaultNamesD

  const DefaultNamesA: seq<string> := [
    "DEV-ATD", "DEV-AVIS-cloud", "DEV-BDAS-cloud", "DEV-CAKEHR-cloud",
    "DEV-DELTAPV-cloud", "DEV-ESTAPIKS2-cloud", "DEV-Evo-Roads", "DEV-FITS-cloud",
    "DEV-INTRANET-cloud", "DEV-LAMBDAPV-cloud"
  ]

  const DefaultNamesB: seq<string> := [
    "DEV-MANAGEMENT-cloud", "DEV-NILDA2-cloud", "DEV-OPVS\U{2013}CargoRail", "DEV-PRESERVICA-cloud",
    "DEV-VADDVS", "Dots-Sales", "Product Group", "BW-DEV-ATD",
    "BW-DEV-Common", "BW-DEV-EvoRoads"
  ]

  const DefaultNamesC: seq<string> := [
    "BW-DEV-Kappa", "BW-DEV-LDz-OPVS", "BW-DEV-SAGE-MAGS", "DEV-AIHEN-cloud",
    "DEV-AIROS", "DEV-Digitalizacija", "DEV-EXT-AKKA-LAA", "DEV-External-ATD-SMARTIN",
    "DEV-External-SMARTIN-DESIGN", "DEV-EXT-Estapiks2"
  ]

  const DefaultNamesD: seq<string> := [
    "DEV-EXT-Fits", "DEV-EXT-KAMIS", "DEV-EXT-Peruza", "DEV-EXT-Preservica",
    "DEV-FITS", "DEV-IC-FITS", "SQL-00-PBI-Sync"
  ]


  /** Python's `str.isspace()` for one character. */
  predicate IsSpace(c: char)
    ensures IsSpace(c) ==> !('!' <= c <= '~')
  {
    var n := c as int;
    || n == 0x20 || 0x09 <= n <= 0x0D || 0x1C <= n <= 0x1F
    || n == 0x85 || n == 0xA0 || n == 0x1680 || 0x2000 <= n <= 0x200A
    || n == 0x2028 || n == 0x2029 || n == 0x202F || n == 0x205F || n == 0x3000
  }

  /** Neither starts nor ends with whitespace. */
  predicate IsStripped(s: string) {
    s == [] || (!IsSpace(s[0]) && !IsSpace(s[|s| - 1]))
  }

  /** `str.lstrip()`: the suffix left after the leading whitespace. */
  function LStrip(s: string): (r: string)
    ensures |r| <= |s|
  {
    if s != [] && IsSpace(s[0]) then LStrip(s[1..]) else s
  }

  /** `str.rstrip()`: the prefix left before the trailing whitespace. */
  function RStrip(s: string): (r: string)
    ensures |r| <= |s|
  {
    if s != [] && IsSpace(s[|s| - 1]) then RStrip(s[..|s| - 1]) else s
  }

  /** `lstrip` removes a run of whitespace from the front, and all of it. */
  lemma {:induction false} LStripFacts(s: string)
    ensures LStrip(s) == s[|s| - |LStrip(s)|..]
    ensures forall i :: 0 <= i < |s| - |LStrip(s)| ==> IsSpace(s[i])
    ensures LStrip(s) == [] || !IsSpace(LStrip(s)[0])
  {
    if s != [] && IsSpace(s[0]) {
      LStripFacts(s[1..]);
      forall i | 1 <= i < |s| - |LStrip(s)|
        ensures IsSpace(s[i])
      {
        assert s[i] == s[1..][i - 1];
      }
    }
  }

  /** `rstrip` removes a run of whitespace from the back, and all of it. */
  lemma {:induction false} RStripFacts(s: string)
    ensures RStrip(s) == s[..|RStrip(s)|]
    ensures forall i :: |RStrip(s)| <= i < |s| ==> IsSpace(s[i])
    ensures RStrip(s) == [] || !IsSpace(RStrip(s)[|RStrip(s)| - 1])
  {
    if s != [] && IsSpace(s[|s| - 1]) {
      var init := s[..|s| - 1];
      RStripFacts(init);
      forall i | |RStrip(s)| <= i < |s| - 1
        ensures IsSpace(s[i])
      {
        assert s[i] == init[i];
      }
    }
  }

  /** `str.strip()`: the text between the leading and the trailing whitespace. */
  function Strip(s: string): (r: string)
    ensures |r| <= |s|
    ensures IsStripped(r)
  {
    LStripFacts(s);
    RStripFacts(LStrip(s));
    if RStrip(LStrip(s)) != [] then
      assert !IsSpace(RStrip(LStrip(s))[0]) by {
        assert RStrip(LStrip(s))[0] == LStrip(s)[0];
      }
      RStrip(LStrip(s))
    else RStrip(LStrip(s))
  }

  /**
   * Stripping removes whitespace at the two ends and nothing else: the
   * result is the slice of `s` starting after the leading whitespace, and
   * everything outside it is whitespace.
   */
  lemma StripRemovesOnlySpace(s: string)
    ensures var k := |s| - |LStrip(s)|;
      && k + |Strip(s)| <= |s|
      && Strip(s) == s[k..k + |Strip(s)|]
      && (forall i :: 0 <= i < k ==> IsSpace(s[i]))
      && (forall i :: k + |Strip(s)| <= i < |s| ==> IsSpace(s[i]))
  {
    LStripFacts(s);
    StripSlice(s);
    StripTrailing(s);
  }

  /** The stripped text is the slice of `s` between the two runs of space. */
  lemma StripSlice(s: string)
    ensures var k := |s| - |LStrip(s)|;
      k + |Strip(s)| <= |s| && Strip(s) == s[k..k + |Strip(s)|]
  {
    var l := LStrip(s);
    var k := |s| - |l|;
    assert l == s[k..] by { LStripFacts(s); }
    var r := RStrip(l);
    assert r == l[..|r|] by { RStripFacts(l); }
    assert Strip(s) == r;
    assert s[k..][..|r|] == s[k..k + |r|];
  }

  /** Everything after the stripped text is space. */
  lemma StripTrailing(s: string)
    ensures forall i :: |s| - |LStrip(s)| + |Strip(s)| <= i < |s| ==> IsSpace(s[i])
  {
    var l := LStrip(s);
    var k := |s| - |l|;
    assert l == s[k..] by { LStripFacts(s); }
    var r := RStrip(l);
    assert forall j :: |r| <= j < |l| ==> IsSpace(l[j]) by { RStripFacts(l); }
    assert Strip(s) == r;
    forall i | k + |r| <= i < |s|
      ensures IsSpace(s[i])
    {
      assert s[i] == l[i - k];
    }
  }



  /** Python's `str.splitlines()` line boundaries. */
  predicate IsLineBreak(c: char)
    ensures IsLineBreak(c) ==> IsSpace(c)
  {
    var n := c as int;
    || 0x0A <= n <= 0x0D || 0x1C <= n <= 0x1E
    || n == 0x85 || n == 0x2028 || n == 0x2029
  }

  /** The index of the first line boundary in `s`, or `|s|`. */
  function BreakIndex(s: string): (k: nat)
    ensures k <= |s|
    ensures k < |s| ==> IsLineBreak(s[k])
  {
    if s == [] || IsLineBreak(s[0]) then 0 else 1 + BreakIndex(s[1..])
  }

  /** No boundary comes before the first one. */
  lemma {:induction false} BeforeBreak(s: string)
    ensures NoBreak(s[..BreakIndex(s)])
  {
    if s != [] && !IsLineBreak(s[0]) {
      BeforeBreak(s[1..]);
      assert s[..BreakIndex(s)] == [s[0]] + s[1..][..BreakIndex(s[1..])];
    }
  }

  /**
   * `str.splitlines()`: the lines of `s` without their boundaries; `\r\n`
   * is one boundary, and a boundary at the very end opens no further line.
   */
  function SplitLines(s: string): (lines: seq<string>)
    ensures lines == [] <==> s == []
    decreases |s|
  {
    if s == [] then []
    else
      var k := BreakIndex(s);
      if k == |s| then [s]
      else
        var next := if s[k] == '\r' && k + 1 < |s| && s[k + 1] == '\n' then k + 2 else k + 1;
        [s[..k]] + SplitLines(s[next..])
  }

  /** No line of `lines` holds a boundary. */
  predicate AllNoBreak(lines: seq<string>) {
    forall m :: 0 <= m < |lines| ==> NoBreak(lines[m])
  }

  lemma ConsNoBreak(line: string, rest: seq<string>)
    requires NoBreak(line) && AllNoBreak(rest)
    ensures AllNoBreak([line] + rest)
  {
    forall m | 0 <= m < |[line] + rest|
      ensures NoBreak(([line] + rest)[m])
    {
      if m > 0 {
        assert ([line] + rest)[m] == rest[m - 1];
      }
    }
  }

  /** No line that `splitlines` returns holds a boundary. */
  lemma {:induction false} LinesHaveNoBreak(s: string)
    ensures AllNoBreak(SplitLines(s))
    decreases |s|
  {
    if s != [] {
      var k := BreakIndex(s);
      BeforeBreak(s);
      if k < |s| {
        var next := if s[k] == '\r' && k + 1 < |s| && s[k + 1] == '\n' then k + 2 else k + 1;
        assert SplitLines(s) == [s[..k]] + SplitLines(s[next..]);
        LinesHaveNoBreak(s[next..]);
        ConsNoBreak(s[..k], SplitLines(s[next..]));
      } else {
        assert s[..k] == s;
      }
    }
  }

  /** Text without a line boundary is one line. */
  lemma SingleLine(s: string)
    requires s != [] && NoBreak(s)
    ensures SplitLines(s) == [s]
  {
  }

  /** No line boundary anywhere in `s`. */
  predicate NoBreak(s: string) {
    forall i :: 0 <= i < |s| ==> !IsLineBreak(s[i])
  }

  /** Names written one per line: `"\n".join(names)`. */
  function JoinLines(names: seq<string>): string {
    if names == [] then []
    else if |names| == 1 then names[0]
    else names[0] + "\n" + JoinLines(names[1..])
  }

  /** Regrouping a concatenation of four pieces. */
  lemma Regroup<T>(a: seq<T>, b: seq<T>, c: seq<T>, d: seq<T>)
    ensures a + b + c + d == a + b + (c + d)
  {
  }

  /** The first boundary of a line followed by a newline is that newline. */
  lemma {:induction false} BreakAfter(a: string, b: string)
    requires NoBreak(a)
    ensures BreakIndex(a + "\n" + b) == |a|
  {
    if a != [] {
      assert (a + "\n" + b)[1..] == a[1..] + "\n" + b;
      BreakAfter(a[1..], b);
    } else {
      assert (a + "\n" + b)[0] == '\n';
    }
  }

  /** Splitting one line, a newline, and more text: the line, then the lines of the rest. */
  lemma SplitFirst(a: string, b: string)
    requires NoBreak(a)
    ensures SplitLines(a + "\n" + b) == [a] + SplitLines(b)
  {
    var s := a + "\n" + b;
    BreakAfter(a, b);
    assert s[|a|] == '\n';
    assert s[..|a|] == a;
    assert s[|a| + 1..] == b;
  }

  /**
   * Names without boundaries, the last one non-empty, written one per line
   * and split again, are those names: `splitlines` undoes the join.
   */
  lemma {:induction false} SplitJoin(names: seq<string>)
    requires names != [] && names[|names| - 1] != []
    requires AllNoBreak(names)
    ensures SplitLines(JoinLines(names)) == names
  {
    if |names| == 1 {
      SingleLine(names[0]);
    } else {
      assert SplitLines(JoinLines(names[1..])) == names[1..] by {
        SplitJoin(names[1..]);
      }
      SplitFirst(names[0], JoinLines(names[1..]));
    }
  }

  /** A final newline after the last name adds no line. */
  lemma {:induction false} SplitJoinNewline(names: seq<string>)
    requires names != [] && names[|names| - 1] != []
    requires AllNoBreak(names)
    ensures SplitLines(JoinLines(names) + "\n") == names
  {
    if |names| == 1 {
      assert JoinLines(names) + "\n" == names[0] + "\n" + [];
      SplitFirst(names[0], []);
    } else {
      var rest := JoinLines(names[1..]);
      assert JoinLines(names) + "\n" == names[0] + "\n" + (rest + "\n") by {
        assert JoinLines(names) == names[0] + "\n" + rest;
        Regroup(names[0], "\n", rest, "\n");
      }
      assert SplitLines(rest + "\n") == names[1..] by {
        SplitJoinNewline(names[1..]);
      }
      SplitFirst(names[0], rest + "\n");
    }
  }

  /** The filter of the list comprehension: `line.strip() and not line.startswith("#")`. */
  predicate Keep(line: string)
    ensures Keep(line) ==> line != [] && line[0] != '#'
  {
    Strip(line) != [] && !(|line| > 0 && line[0] == '#')
  }

  /** Stripping leaves nothing exactly when the line is all whitespace. */
  lemma StripEmptyIffBlank(s: string)
    ensures Strip(s) == [] <==> forall i :: 0 <= i < |s| ==> IsSpace(s[i])
  {
    StripRemovesOnlySpace(s);
    var k := |s| - |LStrip(s)|;
    if Strip(s) != [] {
      assert Strip(s)[0] == s[k] && !IsSpace(s[k]);
    }
  }

  /**
   * A line is kept exactly when it holds some non-whitespace character and
   * does not itself start with `#` (an indented `#` does not count).
   */
  lemma KeepMeans(line: string)
    ensures Keep(line) <==>
      (exists i :: 0 <= i < |line| && !IsSpace(line[i])) && !(|line| > 0 && line[0] == '#')
  {
    StripEmptyIffBlank(line);
  }

  /** What one line contributes: its stripped form if it is kept, nothing otherwise. */
  function CleanLine(line: string): (names: seq<string>)
    ensures |names| <= 1
  {
    if Keep(line) then [Strip(line)] else []
  }

  /** `[y for x in xs for y in f(x)]`: what each element contributes, in order. */
  function FlatMap(f: string -> seq<string>, xs: seq<string>): seq<string> {
    if xs == [] then [] else f(xs[0]) + FlatMap(f, xs[1..])
  }

  lemma {:induction false} FlatMapAppend(f: string -> seq<string>, a: seq<string>, b: seq<string>)
    ensures FlatMap(f, a + b) == FlatMap(f, a) + FlatMap(f, b)
  {
    if a == [] {
      assert a + b == b;
    } else {
      calc {
        FlatMap(f, a + b);
        { assert (a + b)[0] == a[0] && (a + b)[1..] == a[1..] + b; }
        f(a[0]) + FlatMap(f, a[1..] + b);
        { FlatMapAppend(f, a[1..], b); }
        f(a[0]) + (FlatMap(f, a[1..]) + FlatMap(f, b));
        (f(a[0]) + FlatMap(f, a[1..])) + FlatMap(f, b);
      }
    }
  }

  /** The cleaned names: each kept line, stripped, in input order. */
  function CleanLines(lines: seq<string>): (names: seq<string>)
    ensures |names| <= |lines|
  {
    CleanLengthBound(lines);
    FlatMap(CleanLine, lines)
  }

  lemma {:induction false} CleanLengthBound(lines: seq<string>)
    ensures |FlatMap(CleanLine, lines)| <= |lines|
  {
    if lines != [] {
      CleanLengthBound(lines[1..]);
    }
  }

  /** Cleaning one line after another. */
  lemma CleanCons(lines: seq<string>)
    requires lines != []
    ensures CleanLines(lines) == CleanLine(lines[0]) + CleanLines(lines[1..])
  {
  }

  /** Every cleaned name is non-empty and has no whitespace at either end. */
  lemma {:induction false} CleanNamesStripped(lines: seq<string>, k: nat)
    requires k < |CleanLines(lines)|
    ensures CleanLines(lines)[k] != [] && IsStripped(CleanLines(lines)[k])
  {
    if !(Keep(lines[0]) && k == 0) {
      CleanNamesStripped(lines[1..], if Keep(lines[0]) then k - 1 else k);
    }
  }

  /** Cleaning works line by line, so it keeps the relative order of the lines. */
  lemma {:induction false} CleanAppend(a: seq<string>, b: seq<string>)
    ensures CleanLines(a + b) == CleanLines(a) + CleanLines(b)
  {
    FlatMapAppend(CleanLine, a, b);
  }

  /** Every cleaned name is the stripped form of a kept input line. */
  lemma {:induction false} CleanOrigin(lines: seq<string>, k: nat)
    requires k < |CleanLines(lines)|
    ensures exists i :: 0 <= i < |lines| && Keep(lines[i]) && CleanLines(lines)[k] == Strip(lines[i])
  {
    if Keep(lines[0]) && k == 0 {
      assert Keep(lines[0]) && CleanLines(lines)[0] == Strip(lines[0]);
    } else {
      var d := if Keep(lines[0]) then 1 else 0;
      CleanOrigin(lines[1..], k - d);
      var i :| 0 <= i < |lines[1..]| && Keep(lines[1..][i]) && CleanLines(lines[1..])[k - d] == Strip(lines[1..][i]);
      assert lines[1..][i] == lines[i + 1];
    }
  }

  /** Every kept input line reaches the output. */
  lemma {:induction false} CleanComplete(lines: seq<string>, i: nat)
    requires i < |lines| && Keep(lines[i])
    ensures Strip(lines[i]) in CleanLines(lines)
  {
    if i > 0 {
      CleanComplete(lines[1..], i - 1);
      assert lines[1..][i - 1] == lines[i];
    }
  }

  /** A line that is already a name (non-empty, stripped, no leading '#') survives cleaning unchanged. */
  predicate IsCleanName(s: string) {
    s != [] && IsStripped(s) && s[0] != '#'
  }

  lemma {:induction false} StripStripped(s: string)
    requires IsStripped(s)
    ensures Strip(s) == s
  {
  }

  /** Lines that are all clean names come back unchanged. */
  lemma {:induction false} CleanIdentity(lines: seq<string>)
    requires forall i :: 0 <= i < |lines| ==> IsCleanName(lines[i])
    ensures CleanLines(lines) == lines
  {
    if lines != [] {
      StripStripped(lines[0]);
      CleanIdentity(lines[1..]);
    }
  }

  /** Starts and ends with a printable ASCII character other than a space, and does not start with `#`. */
  predicate PrintableEnds(s: string) {
    s != [] && '!' <= s[0] <= '~' && s[0] != '#' && '!' <= s[|s| - 1] <= '~'
  }

  /** Lines that start and end with printable characters come back from cleaning unchanged. */
  lemma PrintableLinesClean(lines: seq<string>)
    requires forall i :: 0 <= i < |lines| ==> PrintableEnds(lines[i])
    ensures CleanLines(lines) == lines
  {
    CleanIdentity(lines);
  }

  lemma DefaultNamesAPrintable()
    ensures forall i :: 0 <= i < |DefaultNamesA| ==> PrintableEnds(DefaultNamesA[i])
  {
    assert PrintableEnds(DefaultNamesA[0]);
    assert PrintableEnds(DefaultNamesA[1]);
    assert PrintableEnds(DefaultNamesA[2]);
    assert PrintableEnds(DefaultNamesA[3]);
    assert PrintableEnds(DefaultNamesA[4]);
    assert PrintableEnds(DefaultNamesA[5]);
    assert PrintableEnds(DefaultNamesA[6]);
    assert PrintableEnds(DefaultNamesA[7]);
    assert PrintableEnds(DefaultNamesA[8]);
    assert PrintableEnds(DefaultNamesA[9]);
  }

  lemma DefaultNamesBPrintable()
    ensures forall i :: 0 <= i < |DefaultNamesB| ==> PrintableEnds(DefaultNamesB[i])
  {
    assert PrintableEnds(DefaultNamesB[0]);
    assert PrintableEnds(DefaultNamesB[1]);
    assert PrintableEnds(DefaultNamesB[2]);
    assert PrintableEnds(DefaultNamesB[3]);
    assert PrintableEnds(DefaultNamesB[4]);
    assert PrintableEnds(DefaultNamesB[5]);
    assert PrintableEnds(DefaultNamesB[6]);
    assert PrintableEnds(DefaultNamesB[7]);
    assert PrintableEnds(DefaultNamesB[8]);
    assert PrintableEnds(DefaultNamesB[9]);
  }

  lemma DefaultNamesCPrintable()
    ensures forall i :: 0 <= i < |DefaultNamesC| ==> PrintableEnds(DefaultNamesC[i])
  {
    assert PrintableEnds(DefaultNamesC[0]);
    assert PrintableEnds(DefaultNamesC[1]);
    assert PrintableEnds(DefaultNamesC[2]);
    assert PrintableEnds(DefaultNamesC[3]);
    assert PrintableEnds(DefaultNamesC[4]);
    assert PrintableEnds(DefaultNamesC[5]);
    assert PrintableEnds(DefaultNamesC[6]);
    assert PrintableEnds(DefaultNamesC[7]);
    assert PrintableEnds(DefaultNamesC[8]);
    assert PrintableEnds(DefaultNamesC[9]);
  }

  lemma DefaultNamesDPrintable()
    ensures forall i :: 0 <= i < |DefaultNamesD| ==> PrintableEnds(DefaultNamesD[i])
  {
    assert PrintableEnds(DefaultNamesD[0]);
    assert PrintableEnds(DefaultNamesD[1]);
    assert PrintableEnds(DefaultNamesD[2]);
    assert PrintableEnds(DefaultNamesD[3]);
    assert PrintableEnds(DefaultNamesD[4]);
    assert PrintableEnds(DefaultNamesD[5]);
    assert PrintableEnds(DefaultNamesD[6]);
  }

  /**
   * The built-in names obey the rules a names file is held to: there are 37
   * of them, and cleaning them as lines gives them back unchanged.
   */
  lemma DefaultsAreClean()
    ensures |DefaultGroupNames| == 37
    ensures CleanLines(DefaultGroupNames) == DefaultGroupNames
  {
    DefaultNamesAPrintable();
    PrintableLinesClean(DefaultNamesA);
    DefaultNamesBPrintable();
    PrintableLinesClean(DefaultNamesB);
    DefaultNamesCPrintable();
    PrintableLinesClean(DefaultNamesC);
    DefaultNamesDPrintable();
    PrintableLinesClean(DefaultNamesD);
    CleanAppend(DefaultNamesA, DefaultNamesB);
    CleanAppend(DefaultNamesA + DefaultNamesB, DefaultNamesC);
    CleanAppend(DefaultNamesA + DefaultNamesB + DefaultNamesC, DefaultNamesD);
  }

  /** Where the names come from: the built-in list, a path that does not exist, or the text of the file at a path. */
  datatype NamesSource = Defaults | MissingFile(path: string) | FileText(path: string, text: string)

  /**
   * `load_group_names`: the built-in list, or the cleaned lines of the
   * file; a missing file and a file with no usable line are fatal errors.
   * A successful load never yields an empty list.
   */
  function LoadGroupNames(source: NamesSource): (r: Result<seq<string>, string>)
    ensures source.Defaults? ==> r == Ok(DefaultGroupNames)
    ensures source.MissingFile? ==> r == Err("Names file '" + source.path + "' was not found.")
    ensures source.FileText? ==>
      r == (if CleanLines(SplitLines(source.text)) == []
            then Err("No valid group names were found in '" + source.path + "'.")
            else Ok(CleanLines(SplitLines(source.text))))
    ensures r.Ok? ==> r.value != []
  {
    match source
    case Defaults => Ok(DefaultGroupNames)
    case MissingFile(path) => Err("Names file '" + path + "' was not found.")
    case FileText(path, text) =>
      var cleaned := CleanLines(SplitLines(text));
      if cleaned == [] then Err("No valid group names were found in '" + path + "'.")
      else Ok(cleaned)
  }

  /**
   * A file of clean names, one per line, loads as exactly those names, in
   * order, whether or not the last line ends with a newline.
   */
  lemma {:induction false} CleanFileLoads(path: string, names: seq<string>)
    requires names != []
    requires forall i :: 0 <= i < |names| ==> IsCleanName(names[i])
    requires AllNoBreak(names)
    ensures LoadGroupNames(FileText(path, JoinLines(names))) == Ok(names)
    ensures LoadGroupNames(FileText(path, JoinLines(names) + "\n")) == Ok(names)
  {
    SplitJoin(names);
    SplitJoinNewline(names);
    CleanIdentity(names);
  }

}
