/**
 * `ConfigHandler`: the in-memory configuration document, the current user's
 * section of it, and what each accessor does to that section.  The older
 * handler behaves the same except for how it picks its file path and that it
 * has no stylesheet engine; it is the `Legacy` constructor here.
 *
 * The file on disk is the ghost field `disk`: `None` while nothing has been
 * written or read, otherwise the document last written or read.
 */
module ConfigHandlers {
  import opened Results
  import opened Strings
  import opened OrderedDicts
  import opened ConfigModel
  import opened RecentFiles
  import opened Stylesheet

  /** Where the older handler keeps its configuration, for a test run or not. */
  const TestConfigPath: string := ".\\testing\\test_config.yaml"
  const AppConfigPath: string := ".\\resources\\app_config.yaml"

  /** The document the handler starts from, given what the file held (`None`: no file). */
  function InitialDocument(username: string, stored: Option<Document>): (d: Document)
    ensures username in d
    ensures stored.None? ==> d.Keys == {DefaultUser, username} && d[DefaultUser] == StarterConfig
    ensures stored.Some? ==> d.Keys == stored.value.Keys + {username}
    ensures stored.Some? ==> forall u :: u in stored.value ==> d[u] == stored.value[u]
    ensures stored.None? || username !in stored.value ==> d[username] == StarterConfig
  {
    var loaded := if stored.None? then map[DefaultUser := StarterConfig] else stored.value;
    if username in loaded then loaded else loaded[username := StarterConfig]
  }

  /** What is on disk after construction: a user other than `DEFAULT` saves whenever the document was made up. */
  function InitialDisk(username: string, stored: Option<Document>): Option<Document>
  {
    if username == DefaultUser then stored
    else if stored.None? || username !in stored.value then Some(InitialDocument(username, stored))
    else stored
  }

  class ConfigHandler {
    const configPath: string
    const username: string
    var config: Document
    ghost var disk: Option<Document>

    /** The user has a section, and its known fields hold values of their defaults' kinds. */
    ghost predicate Valid()
      reads this
    {
      username in config && WellTyped(config[username])
    }

    /** The current user's settings. */
    ghost function Section(): Section
      reads this
      requires Valid()
    {
      config[username]
    }

    /** The sections of every other user, which no operation touches. */
    ghost function Others(): Document
      reads this
    {
      config - {username}
    }

    /**
     * Opening the handler on `configPath`: `stored` is what the file holds
     * (`None` when it does not exist).  A missing file starts the document as
     * `DEFAULT` with the starter settings; a user without a section gets the
     * starter settings; each of the two is saved.
     */
    constructor (configPath: string, username: string, stored: Option<Document>)
      requires stored.Some? && username in stored.value ==> WellTyped(stored.value[username])
      ensures this.configPath == configPath && this.username == username
      ensures Valid()
      ensures config == InitialDocument(username, stored)
      ensures disk == InitialDisk(username, stored)
    {
      this.configPath := configPath;
      this.username := username;
      new;
      Open(stored);
    }

    /** The older handler's constructor: the path depends on whether this is a test run. */
    constructor Legacy(test: bool, username: string, stored: Option<Document>)
      requires stored.Some? && username in stored.value ==> WellTyped(stored.value[username])
      ensures configPath == if test then TestConfigPath else AppConfigPath
      ensures this.username == username
      ensures Valid()
      ensures config == InitialDocument(username, stored)
      ensures disk == InitialDisk(username, stored)
    {
      configPath := if test then TestConfigPath else AppConfigPath;
      this.username := username;
      new;
      Open(stored);
    }

    /** Loading the document, the part both constructors share. */
    method Open(stored: Option<Document>)
      requires stored.Some? && username in stored.value ==> WellTyped(stored.value[username])
      modifies this
      ensures Valid()
      ensures config == InitialDocument(username, stored)
      ensures disk == InitialDisk(username, stored)
    {
      disk := stored;
      ghost var loaded := if stored.None? then map[DefaultUser := StarterConfig] else stored.value;
      if stored.None? {
        config := map[DefaultUser := StarterConfig];
        SaveConfig();
      } else {
        config := stored.value;
      }
      assert config == loaded;
      assert disk == if stored.None? && username != DefaultUser then Some(loaded) else stored;
      if username !in config {
        config := config[username := StarterConfig];
        SaveConfig();
      }
      assert config == InitialDocument(username, stored);
      StarterWellTyped();
    }

    /** `save_config`: the whole document is written, except for the user `DEFAULT`. */
    method SaveConfig()
      modifies this`disk
      ensures disk == if username == DefaultUser then old(disk) else Some(config)
    {
      if username != DefaultUser {
        disk := Some(config);
      }
    }

    /**
     * `get_config_field(field)`: the section's value, or else the default,
     * which is then written into the section; a field with neither is a
     * `KeyError`.
     */
    method GetConfigField(field: Field) returns (r: Result<Value>)
      requires Valid()
      modifies this`config
      ensures Valid()
      ensures r == FieldValue(old(Section()), field)
      ensures Section() == Backfilled(old(Section()), field) && Others() == old(Others())
    {
      var s := config[username];
      if field in s {
        return Ok(s[field]);
      }
      if field in StarterConfig {
        StarterWellTyped();
        var value := StarterConfig[field];
        SetConfigField(field, value);
        return Ok(value);
      }
      return Err(KeyError(FieldName(field)));
    }

    /** `set_config_field(field, value)`: only that field of the user's section changes. */
    method SetConfigField(field: Field, value: Value)
      requires Valid() && FitsField(field, value)
      modifies this`config
      ensures Valid()
      ensures Section() == old(Section())[field := value] && Others() == old(Others())
    {
      StoreFits(config[username], field, value);
      config := config[username := config[username][field := value]];
    }

    /** `set_config_fields(fields, values)`: one assignment per pair of `zip(fields, values)`, in order. */
    method SetConfigFields(fields: seq<Field>, values: seq<Value>)
      requires Valid()
      requires forall i :: 0 <= i < |Zip(fields, values)| ==> FitsField(fields[i], values[i])
      modifies this`config
      ensures Valid()
      ensures Section() == ApplyPairs(old(Section()), Zip(fields, values)) && Others() == old(Others())
    {
      var pairs := Zip(fields, values);
      var i := 0;
      while i < |pairs|
        invariant 0 <= i <= |pairs|
        invariant Valid()
        invariant Section() == ApplyPairs(old(Section()), pairs[..i]) && Others() == old(Others())
      {
        ApplyPairsStep(old(Section()), pairs, i);
        SetConfigField(pairs[i].0, pairs[i].1);
        i := i + 1;
      }
      assert pairs[..i] == pairs;
    }

    /** The `num_recents_to_show` property. */
    method GetNumRecentsToShow() returns (n: int)
      requires Valid()
      modifies this`config
      ensures Valid()
      ensures n == Limit(old(Section()))
      ensures Section() == Backfilled(old(Section()), NumRecentsToShow) && Others() == old(Others())
    {
      KnownFieldRead(Section(), NumRecentsToShow);
      var r := GetConfigField(NumRecentsToShow);
      n := r.value.n;
    }

    method SetNumRecentsToShow(n: int)
      requires Valid()
      modifies this`config
      ensures Valid()
      ensures Section() == old(Section())[NumRecentsToShow := Number(n)] && Others() == old(Others())
      ensures Limit(Section()) == n
    {
      SetConfigField(NumRecentsToShow, Number(n));
    }

    /** The `recent_files` property. */
    method GetRecentFiles() returns (files: Dict<string, string>)
      requires Valid()
      modifies this`config
      ensures Valid()
      ensures files == Recents(old(Section()))
      ensures Section() == Backfilled(old(Section()), RecentFilesList) && Others() == old(Others())
    {
      KnownFieldRead(Section(), RecentFilesList);
      var r := GetConfigField(RecentFilesList);
      files := r.value.entries;
    }

    method SetRecentFiles(files: Dict<string, string>)
      requires Valid() && UniqueKeys(files)
      modifies this`config
      ensures Valid()
      ensures Section() == old(Section())[RecentFilesList := Files(files)] && Others() == old(Others())
      ensures Recents(Section()) == files
    {
      SetConfigField(RecentFilesList, Files(files));
    }

    /** The `theme_filename` property. */
    method GetThemeFilename() returns (theme: string)
      requires Valid()
      modifies this`config
      ensures Valid()
      ensures theme == Theme(old(Section()))
      ensures Section() == Backfilled(old(Section()), ThemeFilename) && Others() == old(Others())
    {
      KnownFieldRead(Section(), ThemeFilename);
      var r := GetConfigField(ThemeFilename);
      theme := r.value.s;
    }

    method SetThemeFilename(theme: string)
      requires Valid()
      modifies this`config
      ensures Valid()
      ensures Section() == old(Section())[ThemeFilename := Text(theme)] && Others() == old(Others())
      ensures Theme(Section()) == theme
    {
      SetConfigField(ThemeFilename, Text(theme));
    }

    /** The `window_restore` property. */
    method GetWindowRestore() returns (restore: bool)
      requires Valid()
      modifies this`config
      ensures Valid()
      ensures restore == Restore(old(Section()))
      ensures Section() == Backfilled(old(Section()), WindowRestore) && Others() == old(Others())
    {
      KnownFieldRead(Section(), WindowRestore);
      var r := GetConfigField(WindowRestore);
      restore := r.value.b;
    }

    method SetWindowRestore(restore: bool)
      requires Valid()
      modifies this`config
      ensures Valid()
      ensures Section() == old(Section())[WindowRestore := Flag(restore)] && Others() == old(Others())
      ensures Restore(Section()) == restore
    {
      SetConfigField(WindowRestore, Flag(restore));
    }

    /** Reading a known number field, as each half of the two window properties does. */
    method GetNumber(field: Field) returns (n: int)
      requires Valid() && field in {WindowX, WindowY, WindowWidth, WindowHeight}
      modifies this`config
      ensures Valid()
      ensures Number(n) == Read(old(Section()), field)
      ensures Section() == Backfilled(old(Section()), field) && Others() == old(Others())
    {
      KnownFieldRead(Section(), field);
      var r := GetConfigField(field);
      n := r.value.n;
    }

    /** The `window_position` property: `window_x` is read, then `window_y`. */
    method GetWindowPosition() returns (x: int, y: int)
      requires Valid()
      modifies this`config
      ensures Valid()
      ensures (x, y) == Position(old(Section()))
      ensures Section() == Backfilled(Backfilled(old(Section()), WindowX), WindowY) && Others() == old(Others())
    {
      x := GetNumber(WindowX);
      y := GetNumber(WindowY);
    }

    /** Setting `window_position` to a pair: that pair is what the property reads next. */
    method SetWindowPosition(x: int, y: int)
      requires Valid()
      modifies this`config
      ensures Valid()
      ensures Section() == ApplyPairs(old(Section()), Zip([WindowX, WindowY], [Number(x), Number(y)])) && Others() == old(Others())
      ensures Position(Section()) == (x, y)
    {
      WindowPairRoundTrip(Section(), x, y);
      SetConfigFields([WindowX, WindowY], [Number(x), Number(y)]);
    }

    /** The `window_size` property: `window_width` is read, then `window_height`. */
    method GetWindowSize() returns (width: int, height: int)
      requires Valid()
      modifies this`config
      ensures Valid()
      ensures (width, height) == Size(old(Section()))
      ensures Section() == Backfilled(Backfilled(old(Section()), WindowWidth), WindowHeight) && Others() == old(Others())
    {
      width := GetNumber(WindowWidth);
      height := GetNumber(WindowHeight);
    }

    /** Setting `window_size` to a pair: that pair is what the property reads next. */
    method SetWindowSize(width: int, height: int)
      requires Valid()
      modifies this`config
      ensures Valid()
      ensures Section() == ApplyPairs(old(Section()), Zip([WindowWidth, WindowHeight], [Number(width), Number(height)])) && Others() == old(Others())
      ensures Size(Section()) == (width, height)
    {
      WindowPairRoundTrip(Section(), width, height);
      SetConfigFields([WindowWidth, WindowHeight], [Number(width), Number(height)]);
    }

    /** `self.recent_files.popitem()`: the dict is read, then its last entry removed; an empty one fails. */
    method PopRecent() returns (popped: bool)
      requires Valid() && RecentFilesList in Section()
      modifies this`config
      ensures Valid() && Others() == old(Others())
      ensures popped <==> Recents(old(Section())) != []
      ensures popped ==> var files := Recents(old(Section()));
                         Section() == old(Section())[RecentFilesList := Files(files[..|files| - 1])]
      ensures !popped ==> Section() == old(Section())
    {
      var current := GetRecentFiles();
      if current == [] {
        return false;
      }
      TruncatedPrefix(current, |current| - 1);
      SetRecentFiles(current[..|current| - 1]);
      return true;
    }

    /** The loop test `len(self.recent_files) > self.num_recents_to_show`, each side read (and backfilled). */
    method Longer() returns (longer: bool)
      requires Valid()
      modifies this`config
      ensures Valid() && Others() == old(Others())
      ensures longer <==> |Recents(old(Section()))| > Limit(old(Section()))
      ensures Section() == Backfilled(Backfilled(old(Section()), RecentFilesList), NumRecentsToShow)
    {
      var files := GetRecentFiles();
      var limit := GetNumRecentsToShow();
      longer := |files| > limit;
    }

    /**
     * The truncation loop of `add_recent_file`: the last entry is popped until
     * the dict is within the limit, and popping an empty dict fails.
     */
    method TruncateRecents() returns (outcome: Outcome)
      requires Valid() && RecentFilesList in Section()
      modifies this`config
      ensures Valid() && Others() == old(Others())
      ensures var t := Truncated(Recents(old(Section())), Limit(old(Section())));
              outcome == t.outcome
              && Section() == Backfilled(old(Section()), NumRecentsToShow)[RecentFilesList := Files(t.kept)]
    {
      ghost var merged := Recents(Section());
      ghost var limit := Limit(Section());
      ghost var base := Backfilled(Section(), NumRecentsToShow);
      ghost var files := merged;
      outcome := Pass;
      var longer := Longer();
      assert base == base[RecentFilesList := Files(files)];
      while longer
        invariant Valid() && Others() == old(Others())
        invariant files == merged[..|files|]
        invariant limit >= 0 ==> |files| >= limit || files == merged
        invariant Section() == base[RecentFilesList := Files(files)]
        invariant longer <==> |files| > limit
        decreases |files|
      {
        var popped := PopRecent();
        if !popped {
          outcome := Fail(PopEmptyError);
          assert Truncated(merged, limit).kept == [];
          return;
        }
        files := files[..|files| - 1];
        assert Section() == base[RecentFilesList := Files(files)];
        longer := Longer();
      }
      assert files == Truncated(merged, limit).kept;
    }

    /**
     * `add_recent_file(path)`: the section afterwards, and the error if the
     * truncation raised one, are those `AddRecentFile` specifies.
     */
    method AddRecentFile(path: string) returns (outcome: Outcome)
      requires Valid()
      modifies this`config
      ensures Valid() && Others() == old(Others())
      ensures var r := RecentFiles.AddRecentFile(old(Section()), path);
              outcome == r.outcome && Section() == r.section
    {
      var name := Basename(path);
      var files := GetRecentFiles();
      match IndexOfValue(files, path)
      case Some(idx) =>
        var items := GetRecentFiles();
        SetRecentFiles(MoveToFront(items, idx));
        outcome := Pass;
      case None =>
        var current := GetRecentFiles();
        MergeSingleFront(name, path, current);
        FilesFit(Merge([(name, path)], current));
        SetRecentFiles(Merge([(name, path)], current));
        outcome := TruncateRecents();
    }

    /**
     * `get_stylesheet(theme_filename)`: with no theme given, the configured
     * one is read first (and backfilled).
     */
    method GetStylesheet(fs: FileSystem, theme: Option<string>) returns (r: StyleResult)
      requires Valid()
      modifies this`config
      ensures Valid()
      ensures Others() == old(Others())
      ensures theme.Some? ==> r == Stylesheet.Stylesheet(fs, theme.value) && Section() == old(Section())
      ensures theme.None? ==> r == Stylesheet.Stylesheet(fs, Theme(old(Section())))
                              && Section() == Backfilled(old(Section()), ThemeFilename)
    {
      var name: string;
      if theme.None? {
        name := GetThemeFilename();
      } else {
        name := theme.value;
      }
      r := BuildStylesheet(fs, name);
    }

    /**
     * `get_window_position_size(screen_size)`: the saved position and size
     * when the window is to be restored, otherwise (20, 20) and the given
     * scaled screen size capped at 1600 by 1200.  `scaledWidth` and
     * `scaledHeight` are half the screen width and four fifths of its height.
     */
    method GetWindowPositionSize(scaledWidth: int, scaledHeight: int)
      returns (x: int, y: int, width: int, height: int)
      requires Valid()
      modifies this`config
      ensures Valid()
      ensures Restore(old(Section())) ==>
                (x, y) == Position(old(Section())) && (width, height) == Size(old(Section()))
      ensures !Restore(old(Section())) ==>
                x == 20 && y == 20
                && width == (if scaledWidth < 1600 then scaledWidth else 1600)
                && height == (if scaledHeight < 1200 then scaledHeight else 1200)
      ensures Others() == old(Others())
      ensures !Restore(old(Section())) ==> Section() == Backfilled(old(Section()), WindowRestore)
      ensures Restore(old(Section())) ==>
                Section() == Backfilled(Backfilled(Backfilled(Backfilled(Backfilled(
                               old(Section()), WindowRestore), WindowX), WindowY), WindowWidth), WindowHeight)
    {
      ghost var s0 := Section();
      var restore := GetWindowRestore();
      if restore {
        BackfillKeepsReads(s0, WindowRestore, WindowX);
        BackfillKeepsReads(s0, WindowRestore, WindowY);
        BackfillKeepsReads(s0, WindowRestore, WindowWidth);
        BackfillKeepsReads(s0, WindowRestore, WindowHeight);
        x, y := GetWindowPosition();
        width, height := GetWindowSize();
      } else {
        x, y := 20, 20;
        width := if scaledWidth < 1600 then scaledWidth else 1600;
        height := if scaledHeight < 1200 then scaledHeight else 1200;
      }
    }
  }
}
