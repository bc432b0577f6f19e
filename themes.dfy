/**
 * `_get_window_themes`: the theme name each palette file declares on its
 * `@theme-name` line, collected into a dict from theme name to file name.
 * The two dialogs read the name differently.
 */
module Themes {
  import opened Results
  import opened Strings
  import opened OrderedDicts
  import opened Stylesheet

  const ThemeNameKey: string := "@theme-name"

  /** The name shown for a palette without a `@theme-name` line. */
  const UnknownTheme: string := "Unknown"

  /** What `list.index` raises for the legacy lookup when no line names the theme. */
  const NoThemeNameError: Error := ValueError("'@theme-name' is not in list")

  /** Which dialog reads the file. */
  datatype Dialect = Current | Legacy

  /** A palette file found by the search for `colors*.qss`: its path and its text. */
  datatype ThemeFile = ThemeFile(path: string, contents: string)

  //
  // The current dialog
  //

  /** The first line that starts with `@theme-name`, as `next(...)` finds it. */
  function FirstThemeLine(lines: seq<string>): (r: Option<nat>)
    ensures r.None? <==> forall i :: 0 <= i < |lines| ==> !StartsWith(lines[i], ThemeNameKey)
    ensures r.Some? ==> r.value < |lines| && StartsWith(lines[r.value], ThemeNameKey)
                        && forall j :: 0 <= j < r.value ==> !StartsWith(lines[j], ThemeNameKey)
  {
    if lines == [] then None
    else if StartsWith(lines[0], ThemeNameKey) then Some(0)
    else match FirstThemeLine(lines[1..])
         case None => None
         case Some(i) => Some(i + 1)
  }

  /** `line.split("=")[1].strip()`: a line without `=` has no second part. */
  function LineLabel(line: string): Result<string>
  {
    var parts := Split(line, "=");
    if |parts| < 2 then Err(IndexError) else Ok(Strip(parts[1]))
  }

  /** The theme name the current dialog reads from a palette. */
  function ThemeLabel(contents: string): Result<string>
  {
    var lines := Split(contents, "\n");
    match FirstThemeLine(lines)
    case None => Ok(UnknownTheme)
    case Some(i) => LineLabel(lines[i])
  }

  /** The name is the text between the first and the second `=` of the line, stripped. */
  lemma LineLabelBetween(x: string, y: string, rest: string)
    requires '=' !in x && '=' !in y && (rest == [] || rest[0] == '=')
    ensures LineLabel(x + "=" + y + rest) == Ok(Strip(y))
  {
    var line := x + "=" + y + rest;
    assert line == x + ['='] + (y + rest);
    SplitAtFirstChar(x, y + rest, '=');
    if rest == [] {
      assert y + rest == y;
      SplitMissingChar(y, '=');
    } else {
      assert y + rest == y + ['='] + rest[1..];
      SplitAtFirstChar(y, rest[1..], '=');
    }
  }

  /** A `@theme-name` line without `=` makes the lookup fail. */
  lemma LineLabelNoEquals(line: string)
    requires '=' !in line
    ensures LineLabel(line) == Err(IndexError)
  {
    SplitMissingChar(line, '=');
  }

  /** The current dialog names a palette `Unknown` when none of its lines starts with `@theme-name`. */
  lemma ThemeLabelUnknown(contents: string)
    requires forall i :: 0 <= i < |Split(contents, "\n")| ==> !StartsWith(Split(contents, "\n")[i], ThemeNameKey)
    ensures ThemeLabel(contents) == Ok(UnknownTheme)
  {
    assert FirstThemeLine(Split(contents, "\n")).None?;
  }

  /** Otherwise the name is read from the first line that starts with `@theme-name`. */
  lemma ThemeLabelFirstLine(contents: string, i: nat)
    requires var lines := Split(contents, "\n");
             i < |lines| && StartsWith(lines[i], ThemeNameKey)
             && forall j :: 0 <= j < i ==> !StartsWith(lines[j], ThemeNameKey)
    ensures ThemeLabel(contents) == LineLabel(Split(contents, "\n")[i])
  {
    var lines := Split(contents, "\n");
    var r := FirstThemeLine(lines);
    assert r.Some?;
    assert !(r.value < i) && !(i < r.value);
  }

  /** A name read from a line has no leading or trailing white space. */
  lemma ThemeLabelStripped(contents: string)
    ensures ThemeLabel(contents).Ok? ==>
              var l := ThemeLabel(contents).value;
              l == [] || (!IsSpace(l[0]) && !IsSpace(l[|l| - 1]))
  {
    var lines := Split(contents, "\n");
    match FirstThemeLine(lines)
    case None =>
    case Some(k) =>
      var parts := Split(lines[k], "=");
      if |parts| >= 2 {
        var lead, trail := StripSpec(parts[1]);
      }
  }

  //
  // The legacy dialog
  //

  /** `xs.index(x)`: the first position holding `x`. */
  function IndexOf<T(==)>(xs: seq<T>, x: T): (r: Option<nat>)
    ensures r.None? <==> x !in xs
    ensures r.Some? ==> r.value < |xs| && xs[r.value] == x && x !in xs[..r.value]
  {
    if xs == [] then None
    else if xs[0] == x then Some(0)
    else match IndexOf(xs[1..], x)
         case None => None
         case Some(i) =>
           assert xs[..i + 1] == [xs[0]] + xs[1..][..i];
           Some(i + 1)
  }

  /** `[item[0] for item in content_list]`: the part of each line before its first `=`. */
  function Heads(entries: seq<seq<string>>): seq<string>
    requires forall i :: 0 <= i < |entries| ==> |entries[i]| >= 1
  {
    seq(|entries|, i requires 0 <= i < |entries| => entries[i][0])
  }

  /**
   * The theme name the legacy dialog reads: the second part of the first
   * line whose first part is exactly `@theme-name`, not stripped.
   */
  function LegacyThemeLabel(contents: string): Result<string>
  {
    var entries := PaletteEntries(contents);
    match IndexOf(Heads(entries), ThemeNameKey)
    case None => Err(NoThemeNameError)
    case Some(i) => if |entries[i]| < 2 then Err(IndexError) else Ok(entries[i][1])
  }

  /**
   * The legacy name: a `ValueError` exactly when no line's first part is
   * `@theme-name`; otherwise the first such line decides, failing when it
   * has no `=`.
   */
  lemma LegacyThemeLabelSpec(contents: string)
    ensures var entries := PaletteEntries(contents);
            LegacyThemeLabel(contents) == Err(NoThemeNameError)
            <==> forall i :: 0 <= i < |entries| ==> entries[i][0] != ThemeNameKey
    ensures var entries := PaletteEntries(contents);
            forall i :: 0 <= i < |entries| && entries[i][0] == ThemeNameKey
                        && (forall j :: 0 <= j < i ==> entries[j][0] != ThemeNameKey)
                        ==> LegacyThemeLabel(contents)
                            == if |entries[i]| < 2 then Err(IndexError) else Ok(entries[i][1])
  {
    var entries := PaletteEntries(contents);
    var hs := Heads(entries);
    assert |hs| == |entries| && forall i :: 0 <= i < |hs| ==> hs[i] == entries[i][0];
    if ThemeNameKey in hs {
      var k :| 0 <= k < |hs| && hs[k] == ThemeNameKey;
      assert entries[k][0] == ThemeNameKey;
    }
    forall i | 0 <= i < |entries| && entries[i][0] == ThemeNameKey
                && (forall j :: 0 <= j < i ==> entries[j][0] != ThemeNameKey)
      ensures IndexOf(hs, ThemeNameKey) == Some(i)
    {
      assert hs[i] == ThemeNameKey;
      var r := IndexOf(hs, ThemeNameKey).value;
      if r != i {
        assert false;
      }
    }
  }

  /** On a line `@theme-name=<name>` that comes first, the current dialog reads the name stripped. */
  lemma CurrentOnKeyLine(contents: string, i: nat, name: string)
    requires var lines := Split(contents, "\n");
             i < |lines| && lines[i] == ThemeNameKey + "=" + name
             && forall j :: 0 <= j < i ==> !StartsWith(lines[j], ThemeNameKey)
    requires '=' !in name
    ensures ThemeLabel(contents) == Ok(Strip(name))
  {
    var lines := Split(contents, "\n");
    assert lines[i][..|ThemeNameKey|] == ThemeNameKey;
    assert FirstThemeLine(lines) == Some(i);
    LineLabelBetween(ThemeNameKey, name, []);
    assert ThemeNameKey + "=" + name + [] == lines[i];
  }

  /** On the same line, without `" = "`, the legacy dialog reads the name as written. */
  lemma LegacyOnKeyLine(contents: string, i: nat, name: string)
    requires var entries := PaletteEntries(contents);
             i < |entries| && Split(contents, "\n")[i] == ThemeNameKey + "=" + name
             && forall j :: 0 <= j < i ==> entries[j][0] != ThemeNameKey
    requires '=' !in name && !Occurs(ThemeNameKey + "=" + name, " = ")
    ensures LegacyThemeLabel(contents) == Ok(name)
  {
    var entries := PaletteEntries(contents);
    PaletteLineUnpacks(ThemeNameKey, name);
    assert entries[i] == [ThemeNameKey, name];
    LegacyThemeLabelSpec(contents);
  }

  //
  // Collecting the themes
  //

  /** How a dialog reads the name from a palette text. */
  function LabelFor(dialect: Dialect): string -> Result<string>
  {
    match dialect
    case Current => ThemeLabel
    case Legacy => LegacyThemeLabel
  }

  /** What the loop takes from each file: the name read from its text, and its file name. */
  function FileReads(readName: string -> Result<string>, files: seq<ThemeFile>): seq<(Result<string>, string)>
  {
    seq(|files|, i requires 0 <= i < |files| => (readName(files[i].contents), Basename(files[i].path)))
  }

  /** `themes[label] = file_name` for the first `n` reads, stopping at the first error. */
  function Collect(rs: seq<(Result<string>, string)>, n: nat): Result<Dict<string, string>>
    requires n <= |rs|
  {
    if n == 0 then Ok([])
    else match Collect(rs, n - 1)
         case Err(e) => Err(e)
         case Ok(themes) =>
           if rs[n - 1].0.Err? then Err(rs[n - 1].0.error)
           else Ok(Put(themes, rs[n - 1].0.value, rs[n - 1].1))
  }

  /** The themes a dialog collects from the files. */
  function ThemesOf(dialect: Dialect, files: seq<ThemeFile>): Result<Dict<string, string>>
  {
    Collect(FileReads(LabelFor(dialect), files), |files|)
  }

  /** The loop of `_get_window_themes`, for either way of reading the name. */
  method CollectThemes(readName: string -> Result<string>, files: seq<ThemeFile>)
    returns (r: Result<Dict<string, string>>)
    ensures r == Collect(FileReads(readName, files), |files|)
  {
    ghost var rs := FileReads(readName, files);
    var themes: Dict<string, string> := [];
    var i := 0;
    while i < |files|
      invariant 0 <= i <= |files|
      invariant Collect(rs, i) == Ok(themes)
    {
      var read := readName(files[i].contents);
      assert rs[i] == (read, Basename(files[i].path));
      CollectStep(rs, i, themes);
      if read.Err? {
        return Err(read.error);
      }
      themes := Put(themes, read.value, Basename(files[i].path));
      i := i + 1;
    }
    return Ok(themes);
  }

  /** `_get_window_themes` of either dialog. */
  method GetWindowThemes(dialect: Dialect, files: seq<ThemeFile>) returns (r: Result<Dict<string, string>>)
    ensures r == ThemesOf(dialect, files)
  {
    r := CollectThemes(LabelFor(dialect), files);
  }

  /** One round of the loop: a failed read ends the collection with its error, a good one is put in. */
  lemma CollectStep(rs: seq<(Result<string>, string)>, i: nat, themes: Dict<string, string>)
    requires i < |rs| && Collect(rs, i) == Ok(themes)
    ensures rs[i].0.Err? ==> Collect(rs, |rs|) == Err(rs[i].0.error)
    ensures rs[i].0.Ok? ==> Collect(rs, i + 1) == Ok(Put(themes, rs[i].0.value, rs[i].1))
  {
    if rs[i].0.Err? {
      IgnoresLater(rs, i + 1);
    }
  }

  /** Once a read fails, every longer prefix fails with the same error. */
  lemma {:induction false} IgnoresLater(rs: seq<(Result<string>, string)>, n: nat)
    requires n <= |rs| && Collect(rs, n).Err?
    ensures Collect(rs, |rs|) == Collect(rs, n)
    decreases |rs| - n
  {
    if n < |rs| {
      assert Collect(rs, n + 1) == Collect(rs, n);
      IgnoresLater(rs, n + 1);
    }
  }

  /** Collecting fails exactly when some name cannot be read, with the first such error. */
  lemma {:induction false} CollectFailure(rs: seq<(Result<string>, string)>, n: nat)
    requires n <= |rs|
    ensures Collect(rs, n).Ok? <==> forall i :: 0 <= i < n ==> rs[i].0.Ok?
    ensures Collect(rs, n).Err? ==>
              exists k :: 0 <= k < n && rs[k].0 == Err(Collect(rs, n).error)
                          && forall j :: 0 <= j < k ==> rs[j].0.Ok?
    decreases n
  {
    if n > 0 {
      CollectFailure(rs, n - 1);
    }
  }

  /** The collected dict has one entry per name. */
  lemma {:induction false} CollectUnique(rs: seq<(Result<string>, string)>, n: nat)
    requires n <= |rs| && Collect(rs, n).Ok?
    ensures UniqueKeys(Collect(rs, n).value)
    decreases n
  {
    if n > 0 {
      CollectUnique(rs, n - 1);
      PutUnique(Collect(rs, n - 1).value, rs[n - 1].0.value, rs[n - 1].1);
    }
  }

  /** The collected dict as a map: each step assigns the name read to the file name. */
  lemma CollectMapStep(rs: seq<(Result<string>, string)>, n: nat)
    requires 0 < n <= |rs| && Collect(rs, n).Ok?
    ensures Collect(rs, n - 1).Ok? && rs[n - 1].0.Ok?
    ensures ToMap(Collect(rs, n).value) == ToMap(Collect(rs, n - 1).value)[rs[n - 1].0.value := rs[n - 1].1]
  {
    CollectUnique(rs, n - 1);
    ToMapPut(Collect(rs, n - 1).value, rs[n - 1].0.value, rs[n - 1].1);
  }

  /** A name maps to the file name of the last file that declares it. */
  lemma {:induction false} CollectLastWins(rs: seq<(Result<string>, string)>, n: nat)
    requires n <= |rs| && Collect(rs, n).Ok?
    ensures forall i :: 0 <= i < n ==> rs[i].0.Ok?
    ensures forall i :: 0 <= i < n && (forall j :: i < j < n ==> rs[j].0 != rs[i].0)
                        ==> rs[i].0.value in ToMap(Collect(rs, n).value)
                            && ToMap(Collect(rs, n).value)[rs[i].0.value] == rs[i].1
    decreases n
  {
    if n > 0 {
      CollectMapStep(rs, n);
      CollectLastWins(rs, n - 1);
      var prev := ToMap(Collect(rs, n - 1).value);
      var m := ToMap(Collect(rs, n).value);
      forall i | 0 <= i < n && (forall j :: i < j < n ==> rs[j].0 != rs[i].0)
        ensures rs[i].0.value in m && m[rs[i].0.value] == rs[i].1
      {
        if i < n - 1 {
          assert rs[n - 1].0 != rs[i].0;
          assert rs[i].0.value in prev && prev[rs[i].0.value] == rs[i].1;
        }
      }
    }
  }

  /** The names in the dict are exactly the names read. */
  lemma {:induction false} CollectKeys(rs: seq<(Result<string>, string)>, n: nat)
    requires n <= |rs| && Collect(rs, n).Ok?
    ensures forall k :: k in ToMap(Collect(rs, n).value) <==> exists i :: 0 <= i < n && rs[i].0 == Ok(k)
    decreases n
  {
    if n > 0 {
      CollectMapStep(rs, n);
      CollectKeys(rs, n - 1);
      var m := ToMap(Collect(rs, n).value);
      forall k | exists i :: 0 <= i < n && rs[i].0 == Ok(k) ensures k in m {
        var i :| 0 <= i < n && rs[i].0 == Ok(k);
        if i < n - 1 {
          assert exists i' :: 0 <= i' < n - 1 && rs[i'].0 == Ok(k);
        }
      }
    }
  }
}
