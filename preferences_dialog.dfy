/**
 * The preferences dialog of the current application: its widgets record
 * changes in a pending dict, Save applies them to the configuration and
 * Cancel drops them; the dialog also remembers whether the theme changed.
 */
module ConfigDialogs {
  import opened Results
  import opened OrderedDicts
  import opened ConfigModel
  import opened ConfigHandlers
  import opened Stylesheet
  import opened Themes
  import RecentFiles

  /** Whether the dialog is still open, or closed by Save or by Cancel. */
  datatype Status = Editing | Accepted | Rejected

  /** A change a widget of the dialog can record: the toggle, the theme box, or the spin box (0 to 30). */
  predicate PendingChange(f: Field, v: Value)
  {
    match f
    case WindowRestore => v.Flag?
    case ThemeFilename => v.Text?
    case NumRecentsToShow => v.Number? && 0 <= v.n <= 30
    case _ => false
  }

  /** Every entry of the dict is a change a widget can record. */
  predicate AllPending(d: Dict<Field, Value>)
  {
    forall i :: 0 <= i < |d| ==> PendingChange(d[i].0, d[i].1)
  }

  /** Recording a change that a widget can make keeps every entry one. */
  lemma PutPending(d: Dict<Field, Value>, f: Field, v: Value)
    requires AllPending(d) && PendingChange(f, v)
    ensures AllPending(Put(d, f, v))
  {
    var r := Put(d, f, v);
    if IndexOfKey(d, f).None? {
      assert forall i :: 0 <= i < |d| ==> r[i] == d[i];
    }
  }

  /** The pending changes as a map hold only values the widgets can produce. */
  lemma PendingMap(d: Dict<Field, Value>)
    requires UniqueKeys(d) && AllPending(d)
    ensures forall f :: f in ToMap(d) ==> PendingChange(f, ToMap(d)[f])
  {
    ToMapKeys(d);
    ToMapEntries(d);
    forall f | f in ToMap(d) ensures PendingChange(f, ToMap(d)[f]) {
      var i :| 0 <= i < |d| && d[i].0 == f;
    }
  }

  class ConfigDialog {
    const config: ConfigHandler
    /** The theme the configuration held when the dialog opened. */
    const originalTheme: string
    /** The entries of the theme box: theme name to file name. */
    const themes: Dict<string, string>
    var windowThemeChanged: bool
    var pendingChanges: Dict<Field, Value>
    var status: Status

    /**
     * The pending dict has one entry per setting, each a value its widget
     * can produce, and the flag says whether the latest theme chosen differs
     * from the one the dialog opened with.
     */
    ghost predicate Valid()
      reads this, config
    {
      config.Valid() && UniqueKeys(pendingChanges) && AllPending(pendingChanges)
      && (windowThemeChanged <==>
            ThemeFilename in ToMap(pendingChanges) && ToMap(pendingChanges)[ThemeFilename] != Text(originalTheme))
    }

    constructor (config: ConfigHandler, originalTheme: string, themes: Dict<string, string>)
      requires config.Valid()
      ensures this.config == config && this.originalTheme == originalTheme && this.themes == themes
      ensures pendingChanges == [] && !windowThemeChanged && status == Editing
      ensures Valid()
    {
      this.config := config;
      this.originalTheme := originalTheme;
      this.themes := themes;
      windowThemeChanged := false;
      pendingChanges := [];
      status := Editing;
    }

    /**
     * Opening the dialog: the configured theme is remembered, the widgets
     * are filled from the configuration, and the theme box from the palette
     * files, whose failure to read fails the opening.
     */
    static method Open(handler: ConfigHandler, files: seq<ThemeFile>) returns (r: Result<ConfigDialog>)
      requires handler.Valid()
      modifies handler`config
      ensures handler.Valid() && handler.Others() == old(handler.Others())
      ensures r.Ok? <==> ThemesOf(Current, files).Ok?
      ensures r.Err? ==> r.error == ThemesOf(Current, files).error
                         && handler.Section() == Backfilled(Backfilled(old(handler.Section()), ThemeFilename), WindowRestore)
      ensures r.Ok? ==> fresh(r.value) && r.value.Valid() && r.value.config == handler
                        && r.value.originalTheme == Theme(old(handler.Section()))
                        && r.value.themes == ThemesOf(Current, files).value
                        && r.value.pendingChanges == [] && !r.value.windowThemeChanged
                        && r.value.status == Editing
                        && handler.Section() == Backfilled(Backfilled(Backfilled(
                             old(handler.Section()), ThemeFilename), WindowRestore), NumRecentsToShow)
    {
      var original := handler.GetThemeFilename();
      var restore := handler.GetWindowRestore();
      var found := GetWindowThemes(Current, files);
      if found.Err? {
        return Err(found.error);
      }
      var selected := handler.GetThemeFilename();
      var shown := handler.GetNumRecentsToShow();
      var dialog := new ConfigDialog(handler, original, found.value);
      return Ok(dialog);
    }

    /** `_restore_window_changed`: only the toggle's setting is recorded. */
    method RestoreWindowChanged(checked: bool)
      requires Valid()
      modifies this`pendingChanges
      ensures Valid()
      ensures ToMap(pendingChanges) == ToMap(old(pendingChanges))[WindowRestore := Flag(checked)]
    {
      PutPending(pendingChanges, WindowRestore, Flag(checked));
      PutUnique(pendingChanges, WindowRestore, Flag(checked));
      ToMapPut(pendingChanges, WindowRestore, Flag(checked));
      pendingChanges := Put(pendingChanges, WindowRestore, Flag(checked));
    }

    /**
     * `_window_theme_changed`: the theme is recorded, the flag says whether
     * it differs from the original one, and the dialog is restyled with it;
     * the configuration keeps its theme.
     */
    method WindowThemeChanged(newTheme: string, fs: FileSystem) returns (style: StyleResult)
      requires Valid()
      modifies this`pendingChanges, this`windowThemeChanged, config`config
      ensures Valid()
      ensures ToMap(pendingChanges) == ToMap(old(pendingChanges))[ThemeFilename := Text(newTheme)]
      ensures windowThemeChanged <==> newTheme != originalTheme
      ensures style == Stylesheet.Stylesheet(fs, newTheme)
      ensures config.Section() == old(config.Section()) && config.Others() == old(config.Others())
    {
      PutPending(pendingChanges, ThemeFilename, Text(newTheme));
      PutUnique(pendingChanges, ThemeFilename, Text(newTheme));
      ToMapPut(pendingChanges, ThemeFilename, Text(newTheme));
      pendingChanges := Put(pendingChanges, ThemeFilename, Text(newTheme));
      windowThemeChanged := newTheme != originalTheme;
      style := config.GetStylesheet(fs, Some(newTheme));
    }

    /** `_num_recents_changed(value)`: the spin box only offers 0 to 30. */
    method NumRecentsChanged(value: int)
      requires Valid() && 0 <= value <= 30
      modifies this`pendingChanges
      ensures Valid()
      ensures ToMap(pendingChanges) == ToMap(old(pendingChanges))[NumRecentsToShow := Number(value)]
    {
      PutPending(pendingChanges, NumRecentsToShow, Number(value));
      PutUnique(pendingChanges, NumRecentsToShow, Number(value));
      ToMapPut(pendingChanges, NumRecentsToShow, Number(value));
      pendingChanges := Put(pendingChanges, NumRecentsToShow, Number(value));
    }

    /**
     * `_on_save`: each pending change goes through its property setter, so
     * the section is overlaid with the pending map, and the dialog closes.
     * A number of recent files saved this way is between 0 and 30.
     */
    method OnSave()
      requires Valid()
      modifies config`config, this`status
      ensures Valid() && status == Accepted
      ensures config.Section() == old(config.Section()) + ToMap(pendingChanges)
      ensures config.Others() == old(config.Others())
      ensures NumRecentsToShow in ToMap(pendingChanges) ==> 0 <= RecentFiles.Limit(config.Section()) <= 30
    {
      ghost var start := config.Section();
      var i := 0;
      while i < |pendingChanges|
        invariant 0 <= i <= |pendingChanges|
        invariant config.Valid() && config.Others() == old(config.Others())
        invariant config.Section() == ApplyPairs(start, pendingChanges[..i])
      {
        ApplyPairsStep(start, pendingChanges, i);
        assert PendingChange(pendingChanges[i].0, pendingChanges[i].1);
        config.SetConfigField(pendingChanges[i].0, pendingChanges[i].1);
        i := i + 1;
      }
      assert pendingChanges[..i] == pendingChanges;
      ApplyPairsOverlay(start, pendingChanges);
      PendingMap(pendingChanges);
      status := Accepted;
    }

    /** `reject`: the dialog closes and no pending change reaches the configuration. */
    method Reject()
      requires Valid()
      modifies this`status
      ensures Valid() && status == Rejected
      ensures config.config == old(config.config)
    {
      status := Rejected;
    }
  }
}
