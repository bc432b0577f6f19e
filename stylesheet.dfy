/**
 * The theming engine of `ConfigHandler.get_stylesheet`: a palette file of
 * `@label = value` lines is parsed into pairs, the three icon labels get an SVG
 * template rewritten into the temp directory, and every label is then replaced
 * throughout the style template, in palette order.  Files are a map from path
 * to content, and the temp files written are returned as `(path, content)`
 * pairs.
 */
module Stylesheet {
  import opened Results
  import opened Strings

  type FileSystem = map<string, string>

  /** `open(path).read()`. */
  function ReadFile(fs: FileSystem, path: string): Result<string>
  {
    if path in fs then Ok(fs[path]) else Err(FileNotFound(path))
  }

  const StyleTemplatePath: string := ".\\resources\\styles\\style_template.qss"
  const DownArrowTemplatePath: string := ".\\resources\\icons\\down-arrow-template.svg"
  const ButtonAddIconPath: string := ".\\resources\\icons\\plus-symbol-template.svg"
  const ButtonDeleteIconPath: string := ".\\resources\\icons\\minus-symbol-template.svg"
  const TempDir: string := ".\\resources\\temp\\"

  /** Where the palette of a theme lives. */
  function PalettePath(theme: string): string
  {
    ".\\resources\\styles\\" + theme
  }

  /** The `svg_templates` table: which labels are icons, and their template files. */
  function IconTemplate(lbl: string): Option<string>
  {
    if lbl == "@button-plus-icon" then Some(ButtonAddIconPath)
    else if lbl == "@button-minus-icon" then Some(ButtonDeleteIconPath)
    else if lbl == "@combobox-down-arrow" then Some(DownArrowTemplatePath)
    else None
  }

  predicate IsIconLabel(lbl: string)
  {
    IconTemplate(lbl).Some?
  }

  /** `tuple(line.replace(" = ", "=").split("="))`. */
  function PaletteEntry(line: string): seq<string>
  {
    Split(ReplaceAll(line, " = ", "="), "=")
  }

  /** The list comprehension over `colors.split("\n")`. */
  function PaletteEntries(text: string): seq<seq<string>>
  {
    var lines := Split(text, "\n");
    seq(|lines|, i requires 0 <= i < |lines| => PaletteEntry(lines[i]))
  }

  /** `for lbl, clr in color_list`: unpacking every entry, failing at the first that is not a pair. */
  function CheckPairs(entries: seq<seq<string>>): (r: Result<seq<(string, string)>>)
    ensures r.Ok? <==> forall i :: 0 <= i < |entries| ==> |entries[i]| == 2
    ensures r.Ok? ==> |r.value| == |entries|
                      && forall i :: 0 <= i < |entries| ==> r.value[i] == (entries[i][0], entries[i][1])
    ensures r.Err? ==> exists k :: 0 <= k < |entries| && |entries[k]| != 2
                                   && r.error == UnpackError(2, |entries[k]|)
                                   && forall j :: 0 <= j < k ==> |entries[j]| == 2
    decreases |entries|
  {
    if entries == [] then Ok([])
    else
      var init := entries[..|entries| - 1];
      var last := entries[|entries| - 1];
      assert forall i :: 0 <= i < |init| ==> init[i] == entries[i];
      match CheckPairs(init)
      case Err(e) => Err(e)
      case Ok(ps) =>
        if |last| == 2 then Ok(ps + [(last[0], last[1])])
        else Err(UnpackError(2, |last|))
  }

  /** `f"{self.temp_dir}{lbl[1:]}-in-use.svg"`. */
  function TempSvgPath(lbl: string): string
    requires lbl != []
  {
    TempDir + lbl[1..] + "-in-use.svg"
  }

  /** The `url(...)` an icon label is replaced with. */
  function IconUrl(lbl: string): string
    requires lbl != []
  {
    "url(" + ReplaceAll(TempSvgPath(lbl), "\\", "/") + ")"
  }

  /** The temp file written for an icon entry: its template with the label replaced by the colour. */
  function IconWrite(fs: FileSystem, pair: (string, string)): (string, string)
    requires IsIconLabel(pair.0) && IconTemplate(pair.0).value in fs
  {
    (TempSvgPath(pair.0), ReplaceAll(fs[IconTemplate(pair.0).value], pair.0, pair.1))
  }

  /**
   * The state of the first loop of `get_stylesheet`: the error that ended it,
   * if any, the pairs unpacked so far, `processed_svgs` and the temp files
   * written.
   */
  datatype IconPass = IconPass(failure: Option<Error>, pairs: seq<(string, string)>,
                               processed: map<string, string>, writes: seq<(string, string)>)

  /** One iteration of the first loop; once it has failed nothing more happens. */
  function IconStep(fs: FileSystem, acc: IconPass, entry: seq<string>): IconPass
  {
    if acc.failure.Some? then acc
    else if |entry| != 2 then acc.(failure := Some(UnpackError(2, |entry|)))
    else
      var lbl, clr := entry[0], entry[1];
      var acc' := acc.(pairs := acc.pairs + [(lbl, clr)]);
      match IconTemplate(lbl)
      case None => acc'
      case Some(template) =>
        match ReadFile(fs, template)
        case Err(e) => acc'.(failure := Some(e))
        case Ok(svg) =>
          var path := TempSvgPath(lbl);
          acc'.(processed := acc.processed[lbl := IconUrl(lbl)],
                writes := acc.writes + [(path, ReplaceAll(svg, lbl, clr))])
  }

  /** The first loop run over the first `n` entries. */
  function IconsUpTo(fs: FileSystem, entries: seq<seq<string>>, n: nat): (r: IconPass)
    requires n <= |entries|
    ensures r.failure.None? ==> CheckPairs(entries[..n]) == Ok(r.pairs)
  {
    if n == 0 then IconPass(None, [], map[], [])
    else
      var prev := IconsUpTo(fs, entries, n - 1);
      assert entries[..n][..n - 1] == entries[..n - 1];
      IconStep(fs, prev, entries[n - 1])
  }

  /** An iteration of the first loop that does not fail unpacks a pair and, for an icon label, processes it and writes its file. */
  lemma IconStepOk(fs: FileSystem, acc: IconPass, entry: seq<string>)
    requires IconStep(fs, acc, entry).failure.None?
    ensures acc.failure.None? && |entry| == 2
    ensures var r := IconStep(fs, acc, entry);
            var pair := (entry[0], entry[1]);
            r.pairs == acc.pairs + [pair]
            && (IsIconLabel(pair.0) ==>
                  (IconTemplate(pair.0).value in fs
                   && r.processed == acc.processed[pair.0 := IconUrl(pair.0)]
                   && r.writes == acc.writes + [IconWrite(fs, pair)]))
            && (!IsIconLabel(pair.0) ==> r.processed == acc.processed && r.writes == acc.writes)
  {
  }

  /** Every label paired with what the second loop replaces it by: its icon URL if processed, else its colour. */
  function Resolve(pairs: seq<(string, string)>, processed: map<string, string>): seq<(string, string)>
  {
    seq(|pairs|, i requires 0 <= i < |pairs| =>
      (pairs[i].0, if pairs[i].0 in processed then processed[pairs[i].0] else pairs[i].1))
  }

  /** `style = style.replace(lbl, value)` for each pair in order. */
  function ReplaceFold(style: string, reps: seq<(string, string)>): string
    decreases |reps|
  {
    if reps == [] then style
    else
      var last := reps[|reps| - 1];
      ReplaceAll(ReplaceFold(style, reps[..|reps| - 1]), last.0, last.1)
  }

  /** The stylesheet `get_stylesheet` returns, or the exception it raises, and the temp files written. */
  datatype StyleResult = StyleResult(style: Result<string>, writes: seq<(string, string)>)

  /** `get_stylesheet(theme)` on the files `fs`. */
  function Stylesheet(fs: FileSystem, theme: string): StyleResult
  {
    match ReadFile(fs, StyleTemplatePath)
    case Err(e) => StyleResult(Err(e), [])
    case Ok(template) =>
      match ReadFile(fs, PalettePath(theme))
      case Err(e) => StyleResult(Err(e), [])
      case Ok(colors) =>
        var entries := PaletteEntries(colors);
        var icons := IconsUpTo(fs, entries, |entries|);
        if icons.failure.Some? then StyleResult(Err(icons.failure.value), icons.writes)
        else StyleResult(Ok(ReplaceFold(template, Resolve(icons.pairs, icons.processed))), icons.writes)
  }

  /** Once the first loop has failed, the later entries change nothing. */
  lemma {:induction false} IconsFailurePersists(fs: FileSystem, entries: seq<seq<string>>, i: nat, n: nat)
    requires i <= n <= |entries| && IconsUpTo(fs, entries, i).failure.Some?
    ensures IconsUpTo(fs, entries, n) == IconsUpTo(fs, entries, i)
    decreases n
  {
    if i < n {
      IconsFailurePersists(fs, entries, i, n - 1);
    }
  }

  /** The first loop of `get_stylesheet`, over the palette entries. */
  method RunIconPass(fs: FileSystem, entries: seq<seq<string>>) returns (pass: IconPass)
    ensures pass == IconsUpTo(fs, entries, |entries|)
  {
    var pairs: seq<(string, string)> := [];
    var processed: map<string, string> := map[];
    var writes: seq<(string, string)> := [];
    var i := 0;
    while i < |entries|
      invariant 0 <= i <= |entries|
      invariant IconsUpTo(fs, entries, i) == IconPass(None, pairs, processed, writes)
    {
      var entry := entries[i];
      if |entry| != 2 {
        IconsFailurePersists(fs, entries, i + 1, |entries|);
        return IconPass(Some(UnpackError(2, |entry|)), pairs, processed, writes);
      }
      var lbl, clr := entry[0], entry[1];
      pairs := pairs + [(lbl, clr)];
      if IsIconLabel(lbl) {
        var svg := ReadFile(fs, IconTemplate(lbl).value);
        if svg.Err? {
          IconsFailurePersists(fs, entries, i + 1, |entries|);
          return IconPass(Some(svg.error), pairs, processed, writes);
        }
        var content := ReplaceAll(svg.value, lbl, clr);
        var path := TempSvgPath(lbl);
        writes := writes + [(path, content)];
        processed := processed[lbl := IconUrl(lbl)];
      }
      i := i + 1;
    }
    pass := IconPass(None, pairs, processed, writes);
  }

  /** The second loop of `get_stylesheet`: every label replaced, by its icon URL if it has one. */
  method ReplaceLabels(template: string, pairs: seq<(string, string)>, processed: map<string, string>)
    returns (style: string)
    ensures style == ReplaceFold(template, Resolve(pairs, processed))
  {
    style := template;
    var reps := Resolve(pairs, processed);
    var j := 0;
    while j < |pairs|
      invariant 0 <= j <= |pairs|
      invariant style == ReplaceFold(template, reps[..j])
    {
      var lbl, clr := pairs[j].0, pairs[j].1;
      assert reps[..j + 1][..j] == reps[..j];
      if lbl in processed {
        style := ReplaceAll(style, lbl, processed[lbl]);
      } else {
        style := ReplaceAll(style, lbl, clr);
      }
      j := j + 1;
    }
    assert reps[..j] == reps;
  }

  /** `get_stylesheet(theme)`. */
  method BuildStylesheet(fs: FileSystem, theme: string) returns (r: StyleResult)
    ensures r == Stylesheet(fs, theme)
  {
    var t := ReadFile(fs, StyleTemplatePath);
    if t.Err? {
      return StyleResult(Err(t.error), []);
    }
    var c := ReadFile(fs, PalettePath(theme));
    if c.Err? {
      return StyleResult(Err(c.error), []);
    }
    var entries := PaletteEntries(c.value);
    var icons := RunIconPass(fs, entries);
    if icons.failure.Some? {
      return StyleResult(Err(icons.failure.value), icons.writes);
    }
    var style := ReplaceLabels(t.value, icons.pairs, icons.processed);
    r := StyleResult(Ok(style), icons.writes);
  }

  //
  // Palette parsing
  //

  /**
   * A palette line, once `" = "` is normalised to `"="`, falls into one part
   * more than it has `=` signs, and the parts joined by `=` give the normalised
   * line back: a line unpacks into a pair exactly when it has one `=` left.
   */
  lemma PaletteEntryParts(line: string)
    ensures |PaletteEntry(line)| == CountChar(ReplaceAll(line, " = ", "="), '=') + 1
    ensures Join(PaletteEntry(line), "=") == ReplaceAll(line, " = ", "=")
  {
    SplitCharCount(ReplaceAll(line, " = ", "="), '=');
    JoinSplit(ReplaceAll(line, " = ", "="), "=");
  }

  /**
   * A line `label=value` with no other `=` and no `" = "` unpacks into exactly
   * that label and value: no other whitespace is trimmed.
   */
  lemma PaletteLineUnpacks(lbl: string, value: string)
    requires '=' !in lbl && '=' !in value && !Occurs(lbl + "=" + value, " = ")
    ensures PaletteEntry(lbl + "=" + value) == [lbl, value]
  {
    ReplaceAbsent(lbl + "=" + value, " = ", "=");
    SplitAtOnlyChar(lbl, value, '=');
  }

  /** A blank line does not unpack into a pair. */
  lemma BlankLineIsNotAPair()
    ensures PaletteEntry("") == [""]
  {
    assert ReplaceAll("", " = ", "=") == "";
  }

  /** A palette ending in a newline has a blank last line, so `get_stylesheet` fails on it. */
  lemma TrailingNewlineFails(fs: FileSystem, theme: string)
    requires StyleTemplatePath in fs && PalettePath(theme) in fs
    requires var text := fs[PalettePath(theme)]; |text| > 0 && text[|text| - 1] == '\n'
    ensures Stylesheet(fs, theme).style.Err?
  {
    var text := fs[PalettePath(theme)];
    var a := text[..|text| - 1];
    assert text == a + ['\n'];
    SplitCharAppend(a, '\n');
    var entries := PaletteEntries(text);
    assert entries[|entries| - 1] == PaletteEntry("");
    BlankLineIsNotAPair();
    var icons := IconsUpTo(fs, entries, |entries|);
    assert entries[..|entries|] == entries;
  }

  //
  // The icon pass and the result
  //

  /** The label `lbl` occurs among the labels of the first `n` pairs. */
  predicate LabelAmong(pairs: seq<(string, string)>, lbl: string)
  {
    exists i :: 0 <= i < |pairs| && pairs[i].0 == lbl
  }

  /** Every icon line of the palette has a readable template. */
  predicate IconTemplatesFor(fs: FileSystem, entries: seq<seq<string>>)
  {
    forall i :: 0 <= i < |entries| && |entries[i]| == 2 && IsIconLabel(entries[i][0]) ==>
      IconTemplate(entries[i][0]).value in fs
  }

  /**
   * With the templates of the icon lines present, the first loop fails
   * exactly when an entry is not a pair, with the error of the first such
   * entry.
   */
  lemma {:induction false} IconsFailure(fs: FileSystem, entries: seq<seq<string>>, n: nat)
    requires IconTemplatesFor(fs, entries) && n <= |entries|
    ensures var r, c := IconsUpTo(fs, entries, n), CheckPairs(entries[..n]);
            (r.failure.None? <==> c.Ok?) && (c.Err? ==> r.failure == Some(c.error))
    decreases n
  {
    if n > 0 {
      IconsFailure(fs, entries, n - 1);
      assert entries[..n][..n - 1] == entries[..n - 1];
    }
  }

  /** After a run that did not fail, the processed labels are the icon labels among the pairs, each with its URL. */
  lemma {:induction false} IconsProcessed(fs: FileSystem, entries: seq<seq<string>>, n: nat)
    requires n <= |entries| && IconsUpTo(fs, entries, n).failure.None?
    ensures var r := IconsUpTo(fs, entries, n);
            (forall lbl :: lbl in r.processed <==> IsIconLabel(lbl) && LabelAmong(r.pairs, lbl))
            && (forall lbl :: lbl in r.processed ==> r.processed[lbl] == IconUrl(lbl))
    decreases n
  {
    if n > 0 {
      var prev := IconsUpTo(fs, entries, n - 1);
      IconStepOk(fs, prev, entries[n - 1]);
      IconsProcessed(fs, entries, n - 1);
      LabelAmongSnoc(prev.pairs, (entries[n - 1][0], entries[n - 1][1]));
    }
  }

  /** The labels of `pairs + [x]` are those of `pairs` and the label of `x`. */
  lemma LabelAmongSnoc(pairs: seq<(string, string)>, x: (string, string))
    ensures forall lbl :: LabelAmong(pairs + [x], lbl) <==> LabelAmong(pairs, lbl) || lbl == x.0
  {
    var q := pairs + [x];
    assert q[|pairs|] == x;
    forall lbl | LabelAmong(pairs, lbl) ensures LabelAmong(q, lbl) {
      var i :| 0 <= i < |pairs| && pairs[i].0 == lbl;
      assert q[i] == pairs[i];
    }
    forall lbl | LabelAmong(q, lbl) && lbl != x.0 ensures LabelAmong(pairs, lbl) {
      var i :| 0 <= i < |q| && q[i].0 == lbl;
      assert pairs[i] == q[i];
    }
  }

  /**
   * The temp files the icon entries among `pairs` write, in palette order:
   * one for each icon entry whose template can be read.
   */
  function IconWritesOf(fs: FileSystem, pairs: seq<(string, string)>): seq<(string, string)>
    decreases |pairs|
  {
    if pairs == [] then []
    else
      var last := pairs[|pairs| - 1];
      var init := IconWritesOf(fs, pairs[..|pairs| - 1]);
      if IsIconLabel(last.0) && IconTemplate(last.0).value in fs then init + [IconWrite(fs, last)] else init
  }

  /**
   * Whether or not the loop fails, the temp files it has written are those of
   * the icon entries among the pairs it unpacked, one each and in order.
   */
  lemma {:induction false} IconsWrites(fs: FileSystem, entries: seq<seq<string>>, n: nat)
    requires n <= |entries|
    ensures var r := IconsUpTo(fs, entries, n);
            r.writes == IconWritesOf(fs, r.pairs)
    decreases n
  {
    if n > 0 {
      var prev := IconsUpTo(fs, entries, n - 1);
      IconsWrites(fs, entries, n - 1);
      var entry := entries[n - 1];
      var r := IconsUpTo(fs, entries, n);
      if prev.failure.Some? || |entry| != 2 {
        assert r.pairs == prev.pairs && r.writes == prev.writes;
      } else {
        var pair := (entry[0], entry[1]);
        var p := prev.pairs + [pair];
        assert r.pairs == p;
        assert p[..|p| - 1] == prev.pairs && p[|p| - 1] == pair;
        if IsIconLabel(pair.0) && IconTemplate(pair.0).value in fs {
          assert r.writes == prev.writes + [IconWrite(fs, pair)];
        } else {
          assert r.writes == prev.writes;
        }
      }
    }
  }

  /** Every label with its final replacement: an icon label its URL, any other label its colour. */
  function ResolvedPalette(pairs: seq<(string, string)>): (reps: seq<(string, string)>)
    ensures |reps| == |pairs|
  {
    seq(|pairs|, i requires 0 <= i < |pairs| =>
      (pairs[i].0, if IsIconLabel(pairs[i].0) then IconUrl(pairs[i].0) else pairs[i].1))
  }

  /** A missing template or palette raises FileNotFoundError before anything is written. */
  lemma StylesheetMissingFile(fs: FileSystem, theme: string)
    ensures StyleTemplatePath !in fs ==>
              Stylesheet(fs, theme) == StyleResult(Err(FileNotFound(StyleTemplatePath)), [])
    ensures StyleTemplatePath in fs && PalettePath(theme) !in fs ==>
              Stylesheet(fs, theme) == StyleResult(Err(FileNotFound(PalettePath(theme))), [])
  {
  }

  /**
   * `get_stylesheet` with its template, its palette and the templates of its
   * icon lines present fails with the error of the first
   * palette line that is not a pair, and otherwise returns the template with
   * every label replaced in palette order, an icon label by its URL and any
   * other label by its colour.
   */
  lemma StylesheetStyle(fs: FileSystem, theme: string)
    requires StyleTemplatePath in fs && PalettePath(theme) in fs
    requires IconTemplatesFor(fs, PaletteEntries(fs[PalettePath(theme)]))
    ensures var c := CheckPairs(PaletteEntries(fs[PalettePath(theme)]));
            var r := Stylesheet(fs, theme);
            (r.style.Ok? <==> c.Ok?)
            && (c.Err? ==> r.style == Err(c.error))
            && (c.Ok? ==> r.style == Ok(ReplaceFold(fs[StyleTemplatePath], ResolvedPalette(c.value))))
  {
    var entries := PaletteEntries(fs[PalettePath(theme)]);
    IconsFailure(fs, entries, |entries|);
    assert entries[..|entries|] == entries;
    if IconsUpTo(fs, entries, |entries|).failure.None? {
      ResolveIcons(fs, entries);
    }
  }

  /** The replacements the second loop makes are those of `ResolvedPalette`. */
  lemma ResolveIcons(fs: FileSystem, entries: seq<seq<string>>)
    requires IconsUpTo(fs, entries, |entries|).failure.None?
    ensures var r := IconsUpTo(fs, entries, |entries|);
            Resolve(r.pairs, r.processed) == ResolvedPalette(r.pairs)
  {
    var r := IconsUpTo(fs, entries, |entries|);
    IconsProcessed(fs, entries, |entries|);
    var p := r.pairs;
    forall i | 0 <= i < |p| ensures Resolve(p, r.processed)[i] == ResolvedPalette(p)[i] {
      assert LabelAmong(p, p[i].0);
    }
  }

  /** An entry on which the first loop raises: not a pair, or an icon entry whose template cannot be read. */
  predicate EntryFails(fs: FileSystem, entry: seq<string>)
  {
    |entry| != 2 || (IsIconLabel(entry[0]) && IconTemplate(entry[0]).value !in fs)
  }

  /** What the first loop raises on such an entry. */
  function EntryError(fs: FileSystem, entry: seq<string>): Error
    requires EntryFails(fs, entry)
  {
    if |entry| != 2 then UnpackError(2, |entry|) else FileNotFound(IconTemplate(entry[0]).value)
  }

  /** Entry `k` is the first on which the first loop raises. */
  predicate FirstFailure(fs: FileSystem, entries: seq<seq<string>>, k: int)
  {
    0 <= k < |entries| && EntryFails(fs, entries[k])
    && forall j :: 0 <= j < k ==> !EntryFails(fs, entries[j])
  }

  /**
   * The first loop run over `n` entries fails exactly when one of them raises,
   * and then it stopped at the first such entry `k`: its error is that
   * entry's, and the loop's state is the one it had after entry `k`.
   */
  lemma {:induction false} IconsOutcome(fs: FileSystem, entries: seq<seq<string>>, n: nat)
    requires n <= |entries|
    ensures var r := IconsUpTo(fs, entries, n);
            (r.failure.None? <==> forall i :: 0 <= i < n ==> !EntryFails(fs, entries[i]))
            && forall k :: k < n && FirstFailure(fs, entries, k) ==>
                 IconsUpTo(fs, entries, k).failure.None?
                 && r.failure == Some(EntryError(fs, entries[k]))
                 && r.writes == IconsUpTo(fs, entries, k).writes
    decreases n
  {
    if n > 0 {
      IconsOutcome(fs, entries, n - 1);
      var prev := IconsUpTo(fs, entries, n - 1);
      if prev.failure.Some? {
        assert IconsUpTo(fs, entries, n) == prev;
      }
      forall k | k < n && FirstFailure(fs, entries, k)
        ensures IconsUpTo(fs, entries, k).failure.None?
                && IconsUpTo(fs, entries, n).failure == Some(EntryError(fs, entries[k]))
                && IconsUpTo(fs, entries, n).writes == IconsUpTo(fs, entries, k).writes
      {
        if k < n - 1 {
          assert IconsUpTo(fs, entries, n) == prev;
        }
      }
    }
  }

  /**
   * `get_stylesheet` with its template and palette present fails exactly
   * when a palette line is not a pair or is an icon line whose template is
   * missing.  It raises the error of the first such line, after writing the
   * temp files of the icon lines before it, in order.
   */
  lemma StylesheetFailure(fs: FileSystem, theme: string)
    requires StyleTemplatePath in fs && PalettePath(theme) in fs
    ensures var entries := PaletteEntries(fs[PalettePath(theme)]);
            var r := Stylesheet(fs, theme);
            (r.style.Ok? <==> forall i :: 0 <= i < |entries| ==> !EntryFails(fs, entries[i]))
            && forall k :: FirstFailure(fs, entries, k) ==>
                 r.style == Err(EntryError(fs, entries[k]))
                 && CheckPairs(entries[..k]).Ok?
                 && r.writes == IconWritesOf(fs, CheckPairs(entries[..k]).value)
  {
    var entries := PaletteEntries(fs[PalettePath(theme)]);
    IconsOutcome(fs, entries, |entries|);
    forall k | FirstFailure(fs, entries, k)
      ensures CheckPairs(entries[..k]).Ok?
              && IconsUpTo(fs, entries, k).writes == IconWritesOf(fs, CheckPairs(entries[..k]).value)
    {
      IconsWrites(fs, entries, k);
    }
  }

  /**
   * A successful `get_stylesheet` has read the template of every icon line,
   * and has written one temp file per icon line, in palette order.
   */
  lemma StylesheetWrites(fs: FileSystem, theme: string)
    requires StyleTemplatePath in fs && PalettePath(theme) in fs && Stylesheet(fs, theme).style.Ok?
    ensures var entries := PaletteEntries(fs[PalettePath(theme)]);
            var c := CheckPairs(entries);
            c.Ok? && IconTemplatesFor(fs, entries)
            && Stylesheet(fs, theme).writes == IconWritesOf(fs, c.value)
  {
    var entries := PaletteEntries(fs[PalettePath(theme)]);
    IconsOutcome(fs, entries, |entries|);
    IconsWrites(fs, entries, |entries|);
    assert entries[..|entries|] == entries;
  }

  /** Icon URLs use forward slashes: `url(./resources/temp/<label without @>-in-use.svg)`. */
  lemma IconUrlIs(lbl: string)
    requires lbl != [] && '\\' !in lbl
    ensures IconUrl(lbl) == "url(" + "./resources/temp/" + lbl[1..] + "-in-use.svg" + ")"
  {
    var name := lbl[1..];
    ReplaceCharByChar(TempSvgPath(lbl), '\\', '/');
    var swapped := SwapChar(TempSvgPath(lbl), '\\', '/');
    var u := "./resources/temp/" + name + "-in-use.svg";
    assert forall x :: x in name ==> x in lbl;
    TempDirSwapped();
    assert |swapped| == |u|;
    forall i | 0 <= i < |u| ensures swapped[i] == u[i] {
      if i < |TempDir| {
        assert swapped[i] == SwapChar(TempDir, '\\', '/')[i];
      } else if i < |TempDir| + |name| {
        assert swapped[i] == name[i - |TempDir|];
      } else {
        assert swapped[i] == "-in-use.svg"[i - |TempDir| - |name|];
      }
    }
  }

  /** The temp directory with forward slashes. */
  lemma TempDirSwapped()
    ensures SwapChar(TempDir, '\\', '/') == "./resources/temp/"
  {
    var t := TempDir;
    assert t[0] == '.' && t[1] == '\\' && t[2] == 'r' && t[3] == 'e' && t[4] == 's' && t[5] == 'o'
        && t[6] == 'u' && t[7] == 'r' && t[8] == 'c' && t[9] == 'e' && t[10] == 's' && t[11] == '\\'
        && t[12] == 't' && t[13] == 'e' && t[14] == 'm' && t[15] == 'p' && t[16] == '\\';
  }

  //
  // The replacement fold
  //

  /** The fold runs left to right: folding a concatenation is folding one part and then the other. */
  lemma {:induction false} ReplaceFoldConcat(style: string, a: seq<(string, string)>, b: seq<(string, string)>)
    ensures ReplaceFold(style, a + b) == ReplaceFold(ReplaceFold(style, a), b)
    decreases |b|
  {
    if b == [] {
      assert a + b == a;
    } else {
      assert (a + b)[..|a + b| - 1] == a + b[..|b| - 1];
      ReplaceFoldConcat(style, a, b[..|b| - 1]);
    }
  }

  /** Template text in which no (non-empty) label occurs is left as it is. */
  lemma {:induction false} ReplaceFoldAbsent(style: string, reps: seq<(string, string)>)
    requires forall i :: 0 <= i < |reps| ==> reps[i].0 != [] && !Occurs(style, reps[i].0)
    ensures ReplaceFold(style, reps) == style
    decreases |reps|
  {
    if reps != [] {
      ReplaceFoldAbsent(style, reps[..|reps| - 1]);
      ReplaceAbsent(style, reps[|reps| - 1].0, reps[|reps| - 1].1);
    }
  }

  /**
   * Template text before the first character any label starts with is kept
   * as it is, whatever follows it: the fold only rewrites the rest.
   */
  lemma {:induction false} ReplaceFoldKeepsPrefix(a: string, b: string, reps: seq<(string, string)>)
    requires forall i :: 0 <= i < |reps| ==> reps[i].0 != [] && reps[i].0[0] !in a
    ensures ReplaceFold(a + b, reps) == a + ReplaceFold(b, reps)
    decreases |reps|
  {
    if reps != [] {
      var last := reps[|reps| - 1];
      ReplaceFoldKeepsPrefix(a, b, reps[..|reps| - 1]);
      ReplaceKeepsPrefix(a, ReplaceFold(b, reps[..|reps| - 1]), last.0, last.1);
    }
  }

  //
  // The older `_set_style`, without icons
  //

  /** The older `_set_style`: the same parse, and every label replaced by its colour. */
  function LegacyStylesheet(fs: FileSystem, theme: string): Result<string>
  {
    match ReadFile(fs, StyleTemplatePath)
    case Err(e) => Err(e)
    case Ok(template) =>
      match ReadFile(fs, PalettePath(theme))
      case Err(e) => Err(e)
      case Ok(colors) =>
        match CheckPairs(PaletteEntries(colors))
        case Err(e) => Err(e)
        case Ok(pairs) => Ok(ReplaceFold(template, pairs))
  }

  /** Entries without icon labels write no temp file, whether or not the loop fails. */
  lemma {:induction false} NoIconNoWrites(fs: FileSystem, entries: seq<seq<string>>, n: nat)
    requires n <= |entries|
    requires forall i :: 0 <= i < n && |entries[i]| == 2 ==> !IsIconLabel(entries[i][0])
    ensures IconsUpTo(fs, entries, n).writes == [] && IconsUpTo(fs, entries, n).processed == map[]
    decreases n
  {
    if n > 0 {
      NoIconNoWrites(fs, entries, n - 1);
    }
  }

  /** For a palette without icon labels both versions compute the same stylesheet, and no temp file is written. */
  lemma LegacyAgrees(fs: FileSystem, theme: string)
    requires PalettePath(theme) in fs ==>
               var entries := PaletteEntries(fs[PalettePath(theme)]);
               forall i :: 0 <= i < |entries| && |entries[i]| == 2 ==> !IsIconLabel(entries[i][0])
    ensures Stylesheet(fs, theme).style == LegacyStylesheet(fs, theme)
    ensures Stylesheet(fs, theme).writes == []
  {
    if StyleTemplatePath in fs && PalettePath(theme) in fs {
      StylesheetStyle(fs, theme);
      var entries := PaletteEntries(fs[PalettePath(theme)]);
      NoIconNoWrites(fs, entries, |entries|);
      var c := CheckPairs(PaletteEntries(fs[PalettePath(theme)]));
      if c.Ok? {
        assert ResolvedPalette(c.value) == c.value;
      }
    }
  }
}
