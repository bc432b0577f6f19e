/**
 * The configuration document shared by both versions of the handler: one
 * section of settings per user name, the starter defaults, and what reading
 * and writing fields does to a section.
 */
module ConfigModel {
  import opened Results
  import opened OrderedDicts

  /** A setting as YAML stores it: text, a flag, a number, or the recent-files dict. */
  datatype Value =
    | Text(s: string)
    | Flag(b: bool)
    | Number(n: int)
    | Files(entries: Dict<string, string>)

  /**
   * A field of a section.  The eight fields the program reads have their own
   * constructors; any other key a configuration file may hold is `Other`.
   */
  datatype Field =
    | ThemeFilename | WindowRestore | WindowX | WindowY | WindowWidth | WindowHeight
    | RecentFilesList | NumRecentsToShow
    | Other(name: string)

  /** The YAML key of a field. */
  function FieldName(f: Field): string
  {
    match f
    case ThemeFilename => "theme_filename"
    case WindowRestore => "window_restore"
    case WindowX => "window_x"
    case WindowY => "window_y"
    case WindowWidth => "window_width"
    case WindowHeight => "window_height"
    case RecentFilesList => "recent_files"
    case NumRecentsToShow => "num_recents_to_show"
    case Other(name) => name
  }

  /** The field a YAML key names: a known field's key names that field. */
  function FieldOf(key: string): Field
  {
    if key == "theme_filename" then ThemeFilename
    else if key == "window_restore" then WindowRestore
    else if key == "window_x" then WindowX
    else if key == "window_y" then WindowY
    else if key == "window_width" then WindowWidth
    else if key == "window_height" then WindowHeight
    else if key == "recent_files" then RecentFilesList
    else if key == "num_recents_to_show" then NumRecentsToShow
    else Other(key)
  }

  /** `Other` never stands for a known key, so that each key has one field. */
  predicate Canonical(f: Field)
  {
    f.Other? ==> FieldOf(f.name) == f
  }

  /** Keys and fields are in one-to-one correspondence. */
  lemma FieldNameRoundTrip(key: string, f: Field)
    ensures FieldName(FieldOf(key)) == key
    ensures Canonical(FieldOf(key))
    ensures Canonical(f) ==> FieldOf(FieldName(f)) == f
  {
  }

  /** One user's settings, field to value. */
  type Section = map<Field, Value>

  /** The whole configuration file: user name to section. */
  type Document = map<string, Section>

  /** The user name used when the login name cannot be found; it is never saved. */
  const DefaultUser: string := "DEFAULT"

  /** The defaults every new section starts from and every missing field is read from. */
  const StarterConfig: Section := map[
    ThemeFilename := Text("colors_light.qss"),
    WindowRestore := Flag(false),
    WindowX := Number(100),
    WindowY := Number(100),
    WindowWidth := Number(1600),
    WindowHeight := Number(1200),
    RecentFilesList := Files([]),
    NumRecentsToShow := Number(10)]

  /**
   * `v` can be stored under `field`: each field the program knows holds the
   * kind of value its default has, and the recent-files dict has distinct
   * keys; any other field may hold anything.
   */
  predicate FitsField(field: Field, v: Value)
  {
    match field
    case ThemeFilename => v.Text?
    case WindowRestore => v.Flag?
    case WindowX | WindowY | WindowWidth | WindowHeight | NumRecentsToShow => v.Number?
    case RecentFilesList => v.Files? && UniqueKeys(v.entries)
    case Other(_) => true
  }

  /** Every known field of the section holds a value it can hold. */
  predicate WellTyped(s: Section)
  {
    (ThemeFilename in s ==> s[ThemeFilename].Text?)
    && (WindowRestore in s ==> s[WindowRestore].Flag?)
    && (WindowX in s ==> s[WindowX].Number?)
    && (WindowY in s ==> s[WindowY].Number?)
    && (WindowWidth in s ==> s[WindowWidth].Number?)
    && (WindowHeight in s ==> s[WindowHeight].Number?)
    && (NumRecentsToShow in s ==> s[NumRecentsToShow].Number?)
    && (RecentFilesList in s ==> s[RecentFilesList].Files? && UniqueKeys(s[RecentFilesList].entries))
  }

  /** A section is well typed exactly when every field in it fits. */
  lemma WellTypedFields(s: Section)
    ensures WellTyped(s) <==> forall f :: f in s ==> FitsField(f, s[f])
  {
  }

  /** The starter defaults are well typed and hold every known field. */
  lemma StarterWellTyped()
    ensures WellTyped(StarterConfig)
    ensures forall f :: f in StarterConfig ==> FitsField(f, StarterConfig[f])
    ensures forall f :: f in StarterConfig <==> !f.Other?
  {
  }

  /** Storing a value that fits its field keeps the section well typed. */
  lemma StoreFits(s: Section, field: Field, v: Value)
    requires FitsField(field, v)
    ensures WellTyped(s) ==> WellTyped(s[field := v])
  {
  }

  /** What `get_config_field(field)` gives back for section `s`. */
  function FieldValue(s: Section, field: Field): Result<Value>
  {
    if field in s then Ok(s[field])
    else if field in StarterConfig then Ok(StarterConfig[field])
    else Err(KeyError(FieldName(field)))
  }

  /** Section `s` after `get_config_field(field)`: a missing known field is written in from the defaults. */
  function Backfilled(s: Section, field: Field): (r: Section)
    ensures WellTyped(s) ==> WellTyped(r)
  {
    if field !in s && field in StarterConfig then
      StarterWellTyped();
      StoreFits(s, field, StarterConfig[field]);
      s[field := StarterConfig[field]]
    else s
  }

  /**
   * Reading a field: it fails exactly for a field that is neither in the
   * section nor in the defaults; otherwise the section afterwards holds the
   * value returned; only that field can change, and a second read returns
   * the same value and changes nothing more.
   */
  lemma ReadBackfills(s: Section, field: Field)
    ensures FieldValue(s, field).Err? <==> field !in s && field !in StarterConfig
    ensures FieldValue(s, field).Err? ==> Backfilled(s, field) == s
    ensures FieldValue(s, field).Ok? ==>
              field in Backfilled(s, field) && Backfilled(s, field)[field] == FieldValue(s, field).value
    ensures field !in s && field in StarterConfig ==> FieldValue(s, field) == Ok(StarterConfig[field])
    ensures forall f :: f != field ==> (f in Backfilled(s, field) <==> f in s)
    ensures forall f :: f != field && f in s ==> Backfilled(s, field)[f] == s[f]
    ensures FieldValue(Backfilled(s, field), field) == FieldValue(s, field)
    ensures Backfilled(Backfilled(s, field), field) == Backfilled(s, field)
  {
  }

  /** In a well-typed section a known field always reads, with a value of its default's kind. */
  lemma KnownFieldRead(s: Section, field: Field)
    requires WellTyped(s) && field in StarterConfig
    ensures field in Backfilled(s, field)
    ensures FieldValue(s, field) == Ok(Backfilled(s, field)[field])
    ensures FitsField(field, Backfilled(s, field)[field])
  {
    StarterWellTyped();
  }

  /** The value a read of a known field returns, backfilled from the defaults when missing. */
  function Read(s: Section, field: Field): (v: Value)
    requires WellTyped(s) && !field.Other?
    ensures FitsField(field, v)
    ensures field in s ==> v == s[field]
    ensures field !in s ==> v == StarterConfig[field]
  {
    KnownFieldRead(s, field);
    Backfilled(s, field)[field]
  }

  /** Backfilling one field leaves what every known field reads as unchanged. */
  lemma BackfillKeepsReads(s: Section, field: Field, g: Field)
    requires WellTyped(s) && !g.Other?
    ensures WellTyped(Backfilled(s, field)) && Read(Backfilled(s, field), g) == Read(s, g)
  {
  }

  /** The `theme_filename` property. */
  function Theme(s: Section): string
    requires WellTyped(s)
  {
    Read(s, ThemeFilename).s
  }

  /** The `window_restore` property. */
  function Restore(s: Section): bool
    requires WellTyped(s)
  {
    Read(s, WindowRestore).b
  }

  /** The `window_position` property. */
  function Position(s: Section): (int, int)
    requires WellTyped(s)
  {
    (Read(s, WindowX).n, Read(s, WindowY).n)
  }

  /** The `window_size` property. */
  function Size(s: Section): (int, int)
    requires WellTyped(s)
  {
    (Read(s, WindowWidth).n, Read(s, WindowHeight).n)
  }

  /** Python's `zip(xs, ys)`: pairs up to the shorter of the two, the rest ignored. */
  function Zip<A, B>(xs: seq<A>, ys: seq<B>): (ps: seq<(A, B)>)
    ensures |ps| == if |xs| <= |ys| then |xs| else |ys|
    ensures forall i :: 0 <= i < |ps| ==> ps[i] == (xs[i], ys[i])
  {
    if xs == [] || ys == [] then [] else [(xs[0], ys[0])] + Zip(xs[1..], ys[1..])
  }

  /** Section `s` after `self.config[user][f] = v` for each pair in order. */
  function ApplyPairs(s: Section, pairs: seq<(Field, Value)>): Section
    decreases |pairs|
  {
    if pairs == [] then s
    else
      var last := pairs[|pairs| - 1];
      ApplyPairs(s, pairs[..|pairs| - 1])[last.0 := last.1]
  }

  /** One more assignment: the pair at `i` is stored over the first `i` pairs' section. */
  lemma ApplyPairsStep(s: Section, pairs: seq<(Field, Value)>, i: nat)
    requires i < |pairs|
    ensures ApplyPairs(s, pairs[..i + 1]) == ApplyPairs(s, pairs[..i])[pairs[i].0 := pairs[i].1]
  {
    assert pairs[..i + 1][..i] == pairs[..i];
  }

  /** Assigning the pairs in order overlays their map, in which the last pair for a field wins. */
  lemma {:induction false} ApplyPairsOverlay(s: Section, pairs: seq<(Field, Value)>)
    ensures ApplyPairs(s, pairs) == s + ToMap(pairs)
    decreases |pairs|
  {
    if pairs != [] {
      var last := pairs[|pairs| - 1];
      ApplyPairsOverlay(s, pairs[..|pairs| - 1]);
      assert (s + ToMap(pairs[..|pairs| - 1]))[last.0 := last.1] == s + ToMap(pairs);
    }
  }

  /** Storing values that fit their fields keeps the section well typed. */
  lemma {:induction false} ApplyPairsWellTyped(s: Section, pairs: seq<(Field, Value)>)
    requires WellTyped(s)
    requires forall i :: 0 <= i < |pairs| ==> FitsField(pairs[i].0, pairs[i].1)
    ensures WellTyped(ApplyPairs(s, pairs))
    decreases |pairs|
  {
    if pairs != [] {
      ApplyPairsWellTyped(s, pairs[..|pairs| - 1]);
    }
  }

  /**
   * `set_config_fields(fields, values)`: a field named at position `i` (below
   * the shorter length) and at no later position gets `values[i]`; a field not
   * named is left as it was.
   */
  lemma SetFieldsLastWins(s: Section, fields: seq<Field>, values: seq<Value>)
    ensures forall i :: 0 <= i < |Zip(fields, values)|
                        && (forall j :: i < j < |Zip(fields, values)| ==> fields[j] != fields[i])
                        ==> fields[i] in ApplyPairs(s, Zip(fields, values))
                            && ApplyPairs(s, Zip(fields, values))[fields[i]] == values[i]
    ensures forall f :: (forall i :: 0 <= i < |Zip(fields, values)| ==> fields[i] != f) ==>
              (f in ApplyPairs(s, Zip(fields, values)) <==> f in s)
              && (f in s ==> ApplyPairs(s, Zip(fields, values))[f] == s[f])
  {
    var ps := Zip(fields, values);
    ApplyPairsOverlay(s, ps);
    ToMapKeys(ps);
    forall i | 0 <= i < |ps| && (forall j :: i < j < |ps| ==> fields[j] != fields[i])
      ensures fields[i] in ApplyPairs(s, ps) && ApplyPairs(s, ps)[fields[i]] == values[i]
    {
      ToMapLastWins(ps, i);
    }
  }

  /** Surplus field names beyond the values are ignored, without an error. */
  lemma ZipIgnoresSurplus<A, B>(xs: seq<A>, more: seq<A>, ys: seq<B>)
    requires |ys| <= |xs|
    ensures Zip(xs + more, ys) == Zip(xs, ys)
  {
  }

  /** Assigning two fields through `zip` and reading them back gives the two values; nothing else changes. */
  lemma PairRoundTrip(s: Section, f: Field, g: Field, x: int, y: int)
    requires WellTyped(s) && f != g
    requires FitsField(f, Number(x)) && FitsField(g, Number(y))
    ensures var r := ApplyPairs(s, Zip([f, g], [Number(x), Number(y)]));
            WellTyped(r) && f in r && g in r && r[f] == Number(x) && r[g] == Number(y)
            && forall h :: h != f && h != g ==> (h in r <==> h in s) && (h in s ==> r[h] == s[h])
  {
    var p := Zip([f, g], [Number(x), Number(y)]);
    assert p == [(f, Number(x)), (g, Number(y))];
    assert p[..1] == [(f, Number(x))];
    assert ApplyPairs(s, p[..1]) == ApplyPairs(s, p[..1][..0])[f := Number(x)];
    assert p[..1][..0] == p[..0];
    assert ApplyPairs(s, p) == s[f := Number(x)][g := Number(y)];
    StoreFits(s, f, Number(x));
    StoreFits(s[f := Number(x)], g, Number(y));
  }

  /**
   * Setting `window_position` or `window_size` to a pair and reading the
   * property back gives the pair.
   */
  lemma WindowPairRoundTrip(s: Section, x: int, y: int)
    requires WellTyped(s)
    ensures var r := ApplyPairs(s, Zip([WindowX, WindowY], [Number(x), Number(y)]));
            WellTyped(r) && Position(r) == (x, y)
    ensures var r := ApplyPairs(s, Zip([WindowWidth, WindowHeight], [Number(x), Number(y)]));
            WellTyped(r) && Size(r) == (x, y)
  {
    PairRoundTrip(s, WindowX, WindowY, x, y);
    PairRoundTrip(s, WindowWidth, WindowHeight, x, y);
  }
}
