/**
 * The preferences dialog of the older application: every widget writes its
 * setting straight into the configuration, and a theme change restyles the
 * main window at once. Closing the dialog, by Save or by Cancel, changes
 * nothing more.
 */
module LegacyConfigDialogs {
  import opened Results
  import opened OrderedDicts
  import opened ConfigModel
  import opened ConfigHandlers
  import opened Stylesheet
  import opened Themes
  import opened ConfigDialogs
  import RecentFiles

  /** The replacement pass without temp icons uses each colour as written. */
  lemma ResolveNothing(pairs: seq<(string, string)>)
    ensures Resolve(pairs, map[]) == pairs
  {
    assert forall i :: 0 <= i < |pairs| ==> Resolve(pairs, map[])[i] == pairs[i];
  }

  /**
   * The main window's `_set_style`: the template is read first, then the
   * configured theme and its palette, and every label is replaced by its
   * colour. A missing template raises before the theme is read.
   */
  method SetStyle(handler: ConfigHandler, fs: FileSystem) returns (style: Result<string>)
    requires handler.Valid()
    modifies handler`config
    ensures handler.Valid() && handler.Others() == old(handler.Others())
    ensures style == LegacyStylesheet(fs, Theme(old(handler.Section())))
    ensures handler.Section() == if StyleTemplatePath in fs
                                 then Backfilled(old(handler.Section()), ThemeFilename)
                                 else old(handler.Section())
  {
    var template := ReadFile(fs, StyleTemplatePath);
    if template.Err? {
      return Err(template.error);
    }
    var theme := handler.GetThemeFilename();
    var colors := ReadFile(fs, PalettePath(theme));
    if colors.Err? {
      return Err(colors.error);
    }
    var pairs := CheckPairs(PaletteEntries(colors.value));
    if pairs.Err? {
      return Err(pairs.error);
    }
    var replaced := ReplaceLabels(template.value, pairs.value, map[]);
    ResolveNothing(pairs.value);
    style := Ok(replaced);
  }

  class LegacyConfigDialog {
    const config: ConfigHandler
    /** The entries of the theme box: theme name to file name. */
    const themes: Dict<string, string>
    var status: Status

    ghost predicate Valid()
      reads this, config
    {
      config.Valid()
    }

    constructor (config: ConfigHandler, themes: Dict<string, string>)
      requires config.Valid()
      ensures this.config == config && this.themes == themes && status == Editing
      ensures Valid()
    {
      this.config := config;
      this.themes := themes;
      status := Editing;
    }

    /**
     * Opening the dialog: the toggle is filled from the configuration, the
     * theme box from the palette files (a palette without a theme-name line,
     * or with one lacking its value, fails the opening), then the theme and
     * the number of recent files are read.
     */
    static method Open(handler: ConfigHandler, files: seq<ThemeFile>) returns (r: Result<LegacyConfigDialog>)
      requires handler.Valid()
      modifies handler`config
      ensures handler.Valid() && handler.Others() == old(handler.Others())
      ensures r.Ok? <==> ThemesOf(Legacy, files).Ok?
      ensures r.Err? ==> r.error == ThemesOf(Legacy, files).error
                         && handler.Section() == Backfilled(old(handler.Section()), WindowRestore)
      ensures r.Ok? ==> fresh(r.value) && r.value.Valid() && r.value.config == handler
                        && r.value.themes == ThemesOf(Legacy, files).value
                        && r.value.status == Editing
                        && handler.Section() == Backfilled(Backfilled(Backfilled(
                             old(handler.Section()), WindowRestore), ThemeFilename), NumRecentsToShow)
    {
      var restore := handler.GetConfigField(WindowRestore);
      var found := GetWindowThemes(Legacy, files);
      if found.Err? {
        return Err(found.error);
      }
      var selected := handler.GetConfigField(ThemeFilename);
      var shown := handler.GetNumRecentsToShow();
      var dialog := new LegacyConfigDialog(handler, found.value);
      return Ok(dialog);
    }

    /** `_restore_window_changed`: the toggle's state is written to the configuration. */
    method RestoreWindowChanged(checked: bool)
      requires Valid()
      modifies config`config
      ensures Valid()
      ensures config.Section() == old(config.Section())[WindowRestore := Flag(checked)]
      ensures config.Others() == old(config.Others())
      ensures Restore(config.Section()) == checked
    {
      config.SetWindowRestore(checked);
    }

    /**
     * `_window_theme_changed`: the chosen file is written to the configuration
     * and the main window is restyled with it.
     */
    method WindowThemeChanged(themeFile: string, fs: FileSystem) returns (style: Result<string>)
      requires Valid()
      modifies config`config
      ensures Valid()
      ensures config.Section() == old(config.Section())[ThemeFilename := Text(themeFile)]
      ensures config.Others() == old(config.Others())
      ensures Theme(config.Section()) == themeFile
      ensures style == LegacyStylesheet(fs, themeFile)
    {
      config.SetThemeFilename(themeFile);
      ghost var chosen := config.Section();
      KnownFieldRead(chosen, ThemeFilename);
      style := SetStyle(config, fs);
    }

    /** `_num_recents_changed(value)`: the spin box only offers 0 to 30, and the value is written at once. */
    method NumRecentsChanged(value: int)
      requires Valid() && 0 <= value <= 30
      modifies config`config
      ensures Valid()
      ensures config.Section() == old(config.Section())[NumRecentsToShow := Number(value)]
      ensures config.Others() == old(config.Others())
      ensures 0 <= RecentFiles.Limit(config.Section()) <= 30
    {
      config.SetNumRecentsToShow(value);
    }

    /** `accept`: the dialog closes; the settings were written as they changed. */
    method Accept()
      requires Valid()
      modifies this`status
      ensures Valid() && status == Accepted
      ensures config.config == old(config.config)
    {
      status := Accepted;
    }

    /** `reject`: the dialog closes and the settings already written stay written. */
    method Reject()
      requires Valid()
      modifies this`status
      ensures Valid() && status == Rejected
      ensures config.config == old(config.config)
    {
      status := Rejected;
    }
  }
}
