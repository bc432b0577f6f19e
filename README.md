# Configuration store, theming engine and preferences dialogs

This project models the configuration layer of a PyQt desktop application and proves properties of that model. It covers five parts.

- **The configuration handler** (`core/app_config_handler.py`, and the older `src/config_handler.py`). The handler keeps an in-memory document that maps user names to sections. A section maps field names to values. The current user's section is backfilled from the starter settings whenever a field is read that is not yet stored. The document is written to disk on save, except for the user `DEFAULT`. The handler also keeps an ordered recent-files dict, in which a re-opened file moves to the front and the dict is cut back to `num_recents_to_show` entries. The newer handler also builds the application stylesheet from a template and a palette file, which includes writing recoloured SVG icons to a temp directory.
- **Theme enumeration.** Both preferences dialogs read each palette file's `@theme-name` line into a dict from theme name to file name. The two dialogs parse that line differently.
- **The newer preferences dialog** keeps its changes pending until Save. It also remembers whether the chosen theme differs from the theme it opened with.
- **The older preferences dialog** writes each change straight into the configuration, and the main window restyles at once.
- **Application metadata** is read from `pyproject.toml`, with a fixed default for every value that is missing.

## How the model is built

- The handler is one class, `ConfigHandlers.ConfigHandler`.
  - Its fields are the document `config` and a ghost field `disk`, which stands for the YAML file (`None` while no file exists).
  - Each accessor is a method that says what it returns and what the current user's `Section()` becomes. Every other user's section, `Others()`, stays as it was.
  - The older handler is the `Legacy` constructor, because its methods behave the same.
- A section is a Dafny `map` keyed by the datatype `Field`. Its eight known fields have their own constructors, and any other key is `Other(name)`.
- Ordered Python dicts are sequences of pairs with distinct keys (`OrderedDicts.Dict`). This covers the recent-files dict, the pending changes and the theme dict.
- File contents are inputs: a `FileSystem` map from path to text. The files the stylesheet engine writes are returned as `(path, content)` pairs.
- Python exceptions are the `Error` datatype. An operation that may raise returns a `Result` or an `Outcome`.
- Some functions only define a Python expression and carry no contract of their own: `Stylesheet.ReadFile` is `open(path).read()`, `Stylesheet.PaletteEntries` the palette's list comprehension, `Stylesheet.Resolve` the choice the second loop of `get_stylesheet` makes per label, `Themes.Heads` the older dialog's `[item[0] for item in ...]`, `Themes.FileReads` the names and base names `_get_window_themes` reads, and `Metadata.Get` `dict.get(key, default)`. The lemmas in the table state what follows from them.
- The specification functions are pure: `Stylesheet`, `AddRecentFile`, `Truncated`, `ThemesOf` and `Extract`. The loops of the source are methods proved equal to them: `BuildStylesheet`, `RunIconPass`, `ReplaceLabels`, `PopWhileLonger`, `TruncateRecents`, `CollectThemes` and `ConfigDialog.OnSave`.

## Behaviour of the code worth knowing

All of these follow the code as written.

- **A new path whose file name is already a key does not record the new path.** `add_recent_file` builds `{filename: path, **recent_files}`. When `filename` is already a key, the existing entry moves to the front and keeps its old path (`RecentFiles.AddNewPath`).
- **A negative `num_recents_to_show` empties the recent-files dict**, and then `popitem()` raises KeyError (`RecentFiles.TruncatedPrefix`, `RecentFiles.AddNewPath`).
- **A missing icon template fails `get_stylesheet` after earlier temp files are written.** The first icon line whose template cannot be read raises FileNotFoundError; the temp files of the icon lines before it stay written (`Stylesheet.StylesheetFailure`).
- **A palette file that ends in a newline makes `get_stylesheet` fail.** The last, empty line does not unpack into a label and a colour (`Stylesheet.TrailingNewlineFails`). The same holds for any blank line, and for any line with a second `=`.
- **The two dialogs differ on a palette without a `@theme-name` line.** The newer dialog names it `Unknown`. The older one raises ValueError from `list.index`, and that fails the whole theme enumeration.

## Model

| member | source | states |
|---|---|---|
| ConfigModel.FieldNameRoundTrip | core/app_config_handler.py:24-31 | every YAML key maps to a field whose key it is, and each known field's key maps back to that field |
| ConfigModel.StarterWellTyped | core/app_config_handler.py:24-31 | the starter settings hold exactly the eight known fields, each with a value of its kind |
| ConfigModel.ReadBackfills | core/app_config_handler.py:189-195 | a read fails with KeyError exactly when the field is in neither the section nor the defaults; otherwise the value returned is the stored one or the default, and afterwards it is stored; no other field changes; reading twice is the same as reading once; the older handler, src/config_handler.py:116-125, behaves the same |
| ConfigModel.KnownFieldRead | core/app_config_handler.py:189-195 | a known field always reads successfully, and the result fits the field's kind |
| ConfigModel.Read | core/app_config_handler.py:256-319 | a property returns the stored value when the field is present, and the starter value otherwise |
| ConfigModel.BackfillKeepsReads | core/app_config_handler.py:189-195 | backfilling one field does not change what any known field reads as |
| ConfigModel.Zip | core/app_config_handler.py:235 | `zip` has the length of the shorter input and pairs items position by position |
| ConfigModel.ZipIgnoresSurplus | core/app_config_handler.py:235-236 | surplus items beyond the shorter sequence are ignored |
| ConfigModel.ApplyPairsOverlay | core/app_config_handler.py:235-236 | assigning the pairs in order gives the section overlaid with their map, in which a repeated field takes its last value |
| ConfigModel.ApplyPairsWellTyped | core/app_config_handler.py:235-236 | assigning values that fit their fields keeps the section well typed |
| ConfigModel.SetFieldsLastWins | core/app_config_handler.py:235-236 | a field last named at position i gets `values[i]`; a field not named among the zipped pairs keeps its presence and value |
| ConfigModel.PairRoundTrip | src/config_handler.py:228-230 | setting two distinct number fields stores both numbers and changes no other field |
| ConfigModel.WindowPairRoundTrip | src/config_handler.py:222-249 | setting the window position or size to a pair and reading it back gives that pair |
| RecentFiles.Recents | core/app_config_handler.py:265-268 | the recent-files dict read from a section has distinct keys; it is the stored dict, or empty when none is stored |
| RecentFiles.Limit | core/app_config_handler.py:256-259 | `num_recents_to_show` is the stored number, or 10 when none is stored |
| RecentFiles.PopWhileLonger | core/app_config_handler.py:158-159 | the `while len > limit: popitem()` loop computes `Truncated` |
| RecentFiles.TruncatedPrefix | core/app_config_handler.py:158-159 | the cut keeps a prefix of at most `limit` entries (none when the limit is negative) and keeps keys distinct |
| RecentFiles.TruncatedCons | core/app_config_handler.py:158-159 | with a limit of at least one, the head entry survives and the tail is cut to one less |
| RecentFiles.AddRecentFile | core/app_config_handler.py:122-159 | the section after `add_recent_file` stays well typed (its contents are given by AddKnownPath and AddNewPath) |
| RecentFiles.AddKnownPath | core/app_config_handler.py:134-147 | re-adding a stored path moves its entry, name and path unchanged, to the front; the other entries keep their order; the multiset of entries and the length are preserved; nothing is cut and nothing else changes; the older handler, src/config_handler.py:62-74, behaves the same |
| RecentFiles.AddNewPath | core/app_config_handler.py:148-159 | a new path is put first under its file name, or an existing entry with that name moves to the front with its old path; the dict is then cut to the limit; the call succeeds exactly when the limit is not negative; only the two recent-files fields change; the older handler, src/config_handler.py:75-86, behaves the same |
| RecentFiles.AddNewPathSection | core/app_config_handler.py:148-159 | the section built for a new path, written as the backfilled limit plus the truncated merge |
| RecentFiles.AddNewNameFirst | core/app_config_handler.py:148-159 | with a limit of at least one, a new path under a new name heads the list, followed by the first limit-1 old entries |
| RecentFiles.AddKeepsBound | core/app_config_handler.py:122-159 | a list within its limit stays within it; a successful new-path addition ends within the limit; the list grows by at most one |
| RecentFiles.AddFreshWithRoomForTwo | core/app_config_handler.py:148-159 | with a limit of 2, a fresh file goes first and only the previous head is kept |
| RecentFiles.AddEntrySequence | core/app_config_handler.py:122-159 | adding three distinct files under a limit of 2 leaves the last two, newest first |
| RecentFiles.ReopenSecond | core/app_config_handler.py:134-147 | re-opening the second of two files swaps them |
| RecentFiles.AddSequenceExample | core/app_config_handler.py:122-159 | opening a, b and c and then b again under a limit of 2 gives [c, b] and then [b, c], keyed by the file names |
| Strings.JoinSplit | core/app_config_handler.py:81-82 | joining the parts of `split(sep)` with `sep` gives the text back |
| Strings.SplitCharCount | core/app_config_handler.py:81-82 | splitting on a character gives one part more than the character's occurrences |
| Strings.ReplaceAbsent | core/app_config_handler.py:103-107 | `replace` with a pattern that does not occur leaves the text unchanged |
| Strings.ReplaceSplitJoin | core/app_config_handler.py:103-107 | `s.replace(p, r)` is `r.join(s.split(p))` for a non-empty pattern: the text between occurrences is kept and each occurrence becomes `r` |
| Strings.ReplaceKeepsPrefix | core/app_config_handler.py:103-107 | a prefix that lacks the pattern's first character is kept as it is, and only the rest is rewritten |
| Strings.ReplaceCharByChar | core/app_config_handler.py:100 | replacing a one-character pattern by one character swaps that character everywhere |
| Strings.StripSpec | app/dialogs/config_dialog.py:122 | `strip` removes white space at both ends only, and the result neither starts nor ends with white space |
| Strings.BasenameIsLastComponent | core/app_config_handler.py:132 | the file name is the suffix of the path after its last separator, and holds no separator |
| OrderedDicts.IndexOfValue | core/app_config_handler.py:136-137 | `list(d.values()).index(v)` is the first position holding `v`, or none exists |
| OrderedDicts.MoveToFront | core/app_config_handler.py:143-144 | popping entry i and inserting it at 0 puts it first, shifts the entries before it by one, keeps the rest in place, and keeps keys distinct |
| OrderedDicts.MoveToFrontPermutes | core/app_config_handler.py:143-144 | moving an entry to the front is a permutation |
| OrderedDicts.MergeSingleFront | core/app_config_handler.py:154 | `{k: v, **b}` is `(k, v)` followed by `b` when `k` is new, and otherwise `b` with `k`'s entry moved to the front and holding `b`'s value |
| OrderedDicts.ToMapPut | app/dialogs/config_dialog.py:137 | assigning `d[k] = v` updates `k` in the dict's map and nothing else |
| OrderedDicts.ToMapLastWins | app/dialogs/config_dialog.py:125 | an entry whose key is not repeated later is what the dict maps its key to |
| Stylesheet.PaletteEntryParts | core/app_config_handler.py:81-82 | a line gives one part more than its `=` signs after normalisation, and the parts join back to the normalised line |
| Stylesheet.PaletteLineUnpacks | core/app_config_handler.py:81-82 | `label=value` with no other `=` gives exactly the parts label and value, nothing trimmed |
| Stylesheet.BlankLineIsNotAPair | core/app_config_handler.py:81-82 | an empty line gives one part |
| Stylesheet.CheckPairs | core/app_config_handler.py:92 | `for lbl, clr in color_list` succeeds exactly when every entry has two parts; otherwise the first bad entry raises the unpacking ValueError |
| Stylesheet.TrailingNewlineFails | core/app_config_handler.py:81-92 | a palette ending in a newline makes the stylesheet fail |
| Stylesheet.IconsUpTo | core/app_config_handler.py:92-101 | when the icon loop does not fail, the pairs it unpacked are those of CheckPairs |
| Stylesheet.IconsFailurePersists | core/app_config_handler.py:92-101 | once the loop has raised, later entries change nothing |
| Stylesheet.IconsFailure | core/app_config_handler.py:92-101 | with the templates of the palette's icon lines present, the loop fails exactly when unpacking fails, with the same error |
| Stylesheet.IconsProcessed | core/app_config_handler.py:93-101 | the processed icons are exactly the icon labels of the palette, each mapped to its temp-file url |
| Stylesheet.IconsWrites | core/app_config_handler.py:94-99 | whether or not the loop fails, the temp files written are `IconWritesOf` the pairs unpacked: one per icon entry with a readable template, in palette order, each holding the icon template with the label replaced by the colour |
| Stylesheet.IconsOutcome | core/app_config_handler.py:92-101 | the loop fails exactly when an entry is not a pair or is an icon entry whose template is missing; it then stops at the first such entry, with that entry's error (the unpacking ValueError or FileNotFoundError for the template) and the writes made before it |
| Stylesheet.RunIconPass | core/app_config_handler.py:92-101 | the icon loop computes IconsUpTo over the whole palette |
| Stylesheet.ReplaceLabels | core/app_config_handler.py:103-107 | the replacement loop computes the fold of replace-all over the resolved pairs |
| Stylesheet.ReplaceFoldConcat | core/app_config_handler.py:103-107 | folding over two runs of pairs is folding over the first, then the second |
| Stylesheet.ReplaceFoldAbsent | core/app_config_handler.py:103-107 | template text in which no label occurs is returned unchanged, provided every label is non-empty (an empty label, from a line `=x`, inserts its value between all characters) |
| Stylesheet.ReplaceFoldKeepsPrefix | core/app_config_handler.py:103-107 | template text before the first character any label starts with is kept as it is, whatever the rest of the template holds |
| Stylesheet.BuildStylesheet | core/app_config_handler.py:54-109 | `get_stylesheet` computes `Stylesheet` for the same files and theme |
| Stylesheet.StylesheetMissingFile | core/app_config_handler.py:72-79 | a missing template, or a missing palette, raises FileNotFoundError before anything is written |
| Stylesheet.StylesheetStyle | core/app_config_handler.py:81-107 | with the template, the palette and the templates of the palette's icon lines present, the result is the template folded over the palette with icon labels resolved to urls, or the unpacking error of the first line that is not a pair (a missing icon template is covered by StylesheetFailure) |
| Stylesheet.StylesheetFailure | core/app_config_handler.py:81-101 | with the template and the palette present, the call fails exactly when a palette line is not a pair or is an icon line whose template is missing; it raises the first such line's error after writing the temp files of the icon lines before it, in order |
| Stylesheet.ResolveIcons | core/app_config_handler.py:103-107 | the second loop's replacements are the palette with icon labels mapped to their urls |
| Stylesheet.StylesheetWrites | core/app_config_handler.py:92-101 | a successful call has read the template of every icon line, and its writes are exactly one per icon line, in palette order (`IconWritesOf`) |
| Stylesheet.IconUrlIs | core/app_config_handler.py:97-100 | an icon's url is `url(./resources/temp/<label without @>-in-use.svg)` |
| Stylesheet.TempDirSwapped | core/app_config_handler.py:40 | the temp directory with backslashes swapped is `./resources/temp/` |
| Stylesheet.NoIconNoWrites | core/app_config_handler.py:92-101 | a palette without icon labels writes no temp file |
| Stylesheet.LegacyAgrees | src/__main__.py:125-139 | for a palette without icon labels, whatever icon templates exist, the older `_set_style` gives the same stylesheet or error as `get_stylesheet`, and no temp file is written |
| ConfigHandlers.InitialDocument | core/app_config_handler.py:43-52 | the user has a section; a missing file gives exactly `DEFAULT` and the user, `DEFAULT` holding the starter settings; a stored file keeps every stored section and adds only the user; a new user's section is the starter settings |
| ConfigHandlers.ConfigHandler.constructor | core/app_config_handler.py:33-52 | the handler holds the initial document, and the disk holds what the two saves wrote |
| ConfigHandlers.ConfigHandler.Legacy | src/config_handler.py:29-48 | the path is the test file or the application file according to `test`; the document and disk are as for the newer handler |
| ConfigHandlers.ConfigHandler.Open | core/app_config_handler.py:43-52 | loading or creating the document, then adding the user, each followed by a save |
| ConfigHandlers.ConfigHandler.SaveConfig | core/app_config_handler.py:170-172 | the disk is unchanged for `DEFAULT`, and is the whole document otherwise; the older handler, src/config_handler.py:97-99, behaves the same |
| ConfigHandlers.ConfigHandler.GetConfigField | core/app_config_handler.py:189-195 | the result is the stored value, the default, or KeyError; the section becomes backfilled; other users are untouched; the older handler, src/config_handler.py:116-125, behaves the same |
| ConfigHandlers.ConfigHandler.SetConfigField | core/app_config_handler.py:213 | only that field of the user's section changes; other users and the disk are untouched; the older handler, src/config_handler.py:143, behaves the same |
| ConfigHandlers.ConfigHandler.SetConfigFields | core/app_config_handler.py:235-236 | the section becomes the pairs of `zip(fields, values)` assigned in order; the older handler, src/config_handler.py:165-166, behaves the same |
| ConfigHandlers.ConfigHandler.GetNumRecentsToShow | core/app_config_handler.py:256-259 | returns the limit and backfills it |
| ConfigHandlers.ConfigHandler.SetNumRecentsToShow | core/app_config_handler.py:261-263 | stores the number, which then reads back |
| ConfigHandlers.ConfigHandler.GetRecentFiles | core/app_config_handler.py:265-268 | returns the recent-files dict and backfills it |
| ConfigHandlers.ConfigHandler.SetRecentFiles | core/app_config_handler.py:270-272 | stores the dict, which then reads back |
| ConfigHandlers.ConfigHandler.GetThemeFilename | core/app_config_handler.py:274-277 | returns the theme file and backfills it |
| ConfigHandlers.ConfigHandler.SetThemeFilename | core/app_config_handler.py:279-281 | stores the theme file, which then reads back |
| ConfigHandlers.ConfigHandler.GetWindowRestore | core/app_config_handler.py:302-305 | returns the restore flag and backfills it |
| ConfigHandlers.ConfigHandler.SetWindowRestore | core/app_config_handler.py:307-309 | stores the flag, which then reads back |
| ConfigHandlers.ConfigHandler.GetNumber | core/app_config_handler.py:295-296 | a window coordinate or dimension reads as its number and is backfilled |
| ConfigHandlers.ConfigHandler.GetWindowPosition | core/app_config_handler.py:292-296 | returns `(window_x, window_y)` and backfills both; the older handler, src/config_handler.py:222-226, behaves the same |
| ConfigHandlers.ConfigHandler.SetWindowPosition | core/app_config_handler.py:298-300 | stores the pair through `set_config_fields`, and it reads back; the older handler, src/config_handler.py:228-230, behaves the same |
| ConfigHandlers.ConfigHandler.GetWindowSize | core/app_config_handler.py:311-315 | returns `(window_width, window_height)` and backfills both; the older handler, src/config_handler.py:241-245, behaves the same |
| ConfigHandlers.ConfigHandler.SetWindowSize | core/app_config_handler.py:317-319 | stores the pair, and it reads back; the older handler, src/config_handler.py:247-249, behaves the same |
| ConfigHandlers.ConfigHandler.PopRecent | core/app_config_handler.py:159 | `popitem()` on the stored dict removes its last entry, or reports that it is empty |
| ConfigHandlers.ConfigHandler.Longer | core/app_config_handler.py:158 | the loop test: the dict is longer than the limit; both are backfilled |
| ConfigHandlers.ConfigHandler.TruncateRecents | core/app_config_handler.py:158-159 | the loop leaves the stored dict as `Truncated` does and raises as it does |
| ConfigHandlers.ConfigHandler.AddRecentFile | core/app_config_handler.py:122-159 | the outcome and the section are those of `RecentFiles.AddRecentFile`; other users are untouched; the older handler, src/config_handler.py:50-86, behaves the same |
| ConfigHandlers.ConfigHandler.GetStylesheet | core/app_config_handler.py:54-109 | the result is `Stylesheet` for the given theme, or for the configured theme (backfilled) when none is given |
| ConfigHandlers.ConfigHandler.GetWindowPositionSize | core/app_config_handler.py:111-120 | with restore on, the stored position and size; otherwise (20, 20) and the scaled screen size capped at 1600 by 1200 |
| Themes.FirstThemeLine | app/dialogs/config_dialog.py:122-124 | `next(...)` finds the first line that starts with `@theme-name`, or shows there is none |
| Themes.LineLabelBetween | app/dialogs/config_dialog.py:122 | the name is the text between the line's first and second `=`, stripped |
| Themes.LineLabelNoEquals | app/dialogs/config_dialog.py:122 | a `@theme-name` line without `=` raises IndexError |
| Themes.ThemeLabelUnknown | app/dialogs/config_dialog.py:122-124 | a palette with no `@theme-name` line is named `Unknown` |
| Themes.ThemeLabelFirstLine | app/dialogs/config_dialog.py:122-124 | otherwise the name is read from the first such line |
| Themes.ThemeLabelStripped | app/dialogs/config_dialog.py:122 | a name read from a line neither starts nor ends with white space |
| Themes.CurrentOnKeyLine | app/dialogs/config_dialog.py:122-124 | a first key line `@theme-name=name` gives the stripped name |
| Themes.IndexOf | src/custom_widgets/config_dialog.py:125 | `list.index` gives the first position holding the item, or none exists |
| Themes.LegacyThemeLabelSpec | src/custom_widgets/config_dialog.py:123-126 | ValueError exactly when no line's part before its first `=` is `@theme-name`; otherwise the second part of the first such line, or IndexError when it has none |
| Themes.LegacyOnKeyLine | src/custom_widgets/config_dialog.py:123-126 | a first key line `@theme-name=name` gives the name, unstripped |
| Themes.CollectThemes | app/dialogs/config_dialog.py:118-126 | the loop computes `Collect` over the files' reads |
| Themes.GetWindowThemes | app/dialogs/config_dialog.py:118-126 | `_get_window_themes` computes `ThemesOf` for the newer dialog; the older dialog, src/custom_widgets/config_dialog.py:118-128, runs the same loop over its own parse |
| Themes.IgnoresLater | src/custom_widgets/config_dialog.py:120-127 | once a file raises, the later files change nothing |
| Themes.CollectFailure | src/custom_widgets/config_dialog.py:120-127 | the enumeration succeeds exactly when every file's name is read, and otherwise fails with the first file's error |
| Themes.CollectUnique | app/dialogs/config_dialog.py:125 | the theme dict has distinct names |
| Themes.CollectLastWins | app/dialogs/config_dialog.py:119-125 | a name maps to the base name of the last file declaring it |
| Themes.CollectKeys | app/dialogs/config_dialog.py:119-125 | the names in the dict are exactly the names read |
| ConfigDialogs.PendingMap | app/dialogs/config_dialog.py:64-66 | every pending value is one its widget can produce, the number of recent files being within 0 to 30 |
| ConfigDialogs.ConfigDialog.constructor | app/dialogs/config_dialog.py:19-30 | no pending change, the theme flag off, the original theme remembered |
| ConfigDialogs.ConfigDialog.Open | app/dialogs/config_dialog.py:19-68 | the original theme is the configured one; the theme dict is `ThemesOf`, and opening fails exactly when it does; the fields read are backfilled |
| ConfigDialogs.ConfigDialog.RestoreWindowChanged | app/dialogs/config_dialog.py:128-132 | records only the latest toggle value; the configuration is untouched |
| ConfigDialogs.ConfigDialog.WindowThemeChanged | app/dialogs/config_dialog.py:134-139 | records the theme; the flag is on exactly when it differs from the original theme; the result is that theme's stylesheet; the configuration is untouched |
| ConfigDialogs.ConfigDialog.NumRecentsChanged | app/dialogs/config_dialog.py:141-143 | records only the latest number, which is within 0 to 30 |
| ConfigDialogs.ConfigDialog.OnSave | app/dialogs/config_dialog.py:145-151 | the section becomes the old section overlaid with the pending map; a saved number of recent files is within 0 to 30; the dialog is accepted |
| ConfigDialogs.ConfigDialog.Reject | app/dialogs/config_dialog.py:81 | the dialog is rejected and the configuration is unchanged |
| LegacyConfigDialogs.SetStyle | src/__main__.py:125-139 | the stylesheet of the configured theme; a missing template raises before the theme is read |
| LegacyConfigDialogs.LegacyConfigDialog.constructor | src/custom_widgets/config_dialog.py:23-31 | the dialog holds the handler and the theme dict |
| LegacyConfigDialogs.LegacyConfigDialog.Open | src/custom_widgets/config_dialog.py:33-68 | the theme dict is `ThemesOf` for the older parse, and opening fails exactly when it does; the fields read are backfilled |
| LegacyConfigDialogs.LegacyConfigDialog.RestoreWindowChanged | src/custom_widgets/config_dialog.py:130-132 | the flag is written to the configuration at once |
| LegacyConfigDialogs.LegacyConfigDialog.WindowThemeChanged | src/custom_widgets/config_dialog.py:134-137 | the chosen theme file is written at once, and the window is restyled with it |
| LegacyConfigDialogs.LegacyConfigDialog.NumRecentsChanged | src/custom_widgets/config_dialog.py:139-141 | the number, within 0 to 30, is written at once |
| LegacyConfigDialogs.LegacyConfigDialog.Accept | src/custom_widgets/config_dialog.py:80 | the dialog closes and the configuration is unchanged |
| LegacyConfigDialogs.LegacyConfigDialog.Reject | src/custom_widgets/config_dialog.py:81 | the dialog closes and nothing already written is reverted |
| Metadata.First | app/metadata.py:61 | `authors[0]` succeeds exactly on a non-empty list or string, and gives a list's first item |
| Metadata.Extract | app/metadata.py:53-61 | extraction succeeds exactly when the metadata and the license are dicts and the first author, if any, is a dict |
| Metadata.UnreadableGivesDefaults | app/metadata.py:40-61 | a missing file, an undecodable file or one without `[project]` gives every default; tests/test_metadata.py:69-73 expects exactly this (`Unknown App` for a missing file) |
| Metadata.FieldsPassThrough | app/metadata.py:54-61 | present name, version, description and license text pass through unchanged; missing ones take their defaults; no authors gives `Unknown` |
| Metadata.FirstAuthorWins | app/metadata.py:60-61 | the author is the first author's name, or `Unknown` when that entry has no name |
| Metadata.ProjectRoundTrip | app/metadata.py:42-61 | metadata written as a `[project]` table loads back unchanged |
| Metadata.LoadingExample | tests/test_metadata.py:54-67 | the example table gives `Test App`, `1.2.3`, `Test Author` and `MIT` |
| StarterAliasing.AliasedHandler.constructor | core/app_config_handler.py:43-52 | a missing file gives `DEFAULT` a fresh copy of the starter object; a stored document keeps its section objects; a user the document lacks (other than `DEFAULT` with a missing file) gets the starter object itself |
| StarterAliasing.AliasedHandler.SetConfigField | core/app_config_handler.py:213 | assigning a field changes the object that is the user's section, and the document still maps to the same objects |
| StarterAliasing.AliasedSecondHandler | core/app_config_handler.py:50-51 | two handlers in one process for a user neither file knows share one section object, so the second starts with the theme set through the first |
| StarterAliasing.SecondHandlerStartsFromDefaults | core/app_config_handler.py:43-52 | with sections held by value, the second handler of such a user starts from the starter settings |

## Left out

- YAML loading and dumping are not modelled. The file's parsed document is a constructor argument, and `disk` holds the document last written.
- An empty YAML file is not modelled (`safe_load` gives `None`, and the membership test then raises).
- TOML decoding is not modelled. The parsed document, or the fact that the file is missing or malformed, is the input.
- The malformed-TOML test, tests/test_metadata.py:75-80, is not modelled. It patches the loader with a bare `Exception`, which `load_metadata` does not catch.
- `getpass.getuser()` and its `DEFAULT` fallback are not modelled: the user name is a constructor argument.
- `os.makedirs` of the temp directory and `glob` of the palette files are not modelled. The palette files found are an input list, in the order `glob` returns them.
- File reads are lookups in a map from path to text. The temp-file writes are returned, and they are not visible to later reads.
- Deleting the temp files is not part of this model.
- ConfigHandlers.ConfigHandler.GetWindowPositionSize: the screen size arrives already scaled and truncated (`int(width * .5)`, `int(height * .8)`), because the product is floating point. `QPoint` and `QSize` are not modelled.
- `__repr__` is not modelled: it depends on Python's `str(dict)` formatting.
- The `username` property and its setter are not modelled. The handler's `username` is a constant, and nothing in the model changes it.
- The older dialog's `config` property is not modelled; it returns the handler it was given.
- ConfigHandlers.ConfigHandler.SetConfigField: requires the value to fit the field's kind (text, flag, number, or a recent-files dict with distinct keys). Python stores any value. Every caller in the modelled code stores a fitting value.
- ConfigHandlers.ConfigHandler.constructor: requires the stored section of the user, if there is one, to be well typed in the same sense.
- ConfigHandlers.ConfigHandler.Legacy: has the same requirement as the constructor.
- Sections are unordered maps. The order of fields in a section only shows in the YAML dump.
- The STARTER_CONFIG aliasing is corrected in the handler model: new sections are copies (see Findings).
- How a path is split into its file name is a model: `Basename` takes the text after the last `\` or `/`. Drive letters and `ntpath`'s other rules are not modelled.
- Qt widgets are not modelled: the toggle, combo box and spin box, the layouts, `setStyleSheet`, `accept`/`exec`, and the combo box's initial selection (`findData`/`setCurrentIndex`).
- The `ic()` debugging call around the chosen theme is not modelled; it returns its argument.
- Logging is not modelled.
- ConfigDialogs.ConfigDialog.WindowThemeChanged: the chosen theme arrives as the combo box's current data (its file name), not from the widget.

## Findings

| source | as written | input that shows it | evidently intended | confidence | as-written member | corrected member |
|---|---|---|---|---|---|---|
| core/app_config_handler.py:50-51 | a user missing from the file gets the class-level `STARTER_CONFIG` dict itself as its section, so later assignments through that section change the shared defaults (the same holds at src/config_handler.py:46-47) | two handlers in one process for the same user, on two files that both lack that user (the older handler's test file and application file, say); the first sets `theme_filename` to `colors_dark.qss`, and the second handler's section then starts with that theme | a copy of the defaults, as the missing-file branch makes with `copy.deepcopy` at core/app_config_handler.py:47 | not executed | StarterAliasing.AliasedSecondHandler | StarterAliasing.SecondHandlerStartsFromDefaults |
