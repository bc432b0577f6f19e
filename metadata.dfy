/**
 * Application metadata read from the `[project]` table of `pyproject.toml`,
 * each field falling back to a default when it is missing, and every field
 * falling back when the file is missing or cannot be decoded.
 */
module Metadata {
  import opened Results

  /** A parsed TOML value. */
  datatype Toml =
    | Str(s: string)
    | Int(i: int)
    | Bool(b: bool)
    | Array(items: seq<Toml>)
    | Table(entries: map<string, Toml>)

  /** What opening and decoding `pyproject.toml` gives. */
  datatype TomlFile = Missing | Malformed | Parsed(document: map<string, Toml>)

  const DefaultName: string := "Unknown App"
  const DefaultVersion: string := "0.0.0"
  const DefaultDescription: string := "No description available"
  const DefaultLicense: string := "No license"
  const DefaultAuthor: string := "Unknown"
  const EmptyTable: Toml := Table(map[])

  /** The five module-level values: name, version, description, license and author. */
  datatype AppMetadata = AppMetadata(appName: Toml, version: Toml, description: Toml, license: Toml, author: Toml)

  /** The metadata used when `pyproject.toml` gives nothing. */
  const Defaults: AppMetadata :=
    AppMetadata(Str(DefaultName), Str(DefaultVersion), Str(DefaultDescription), Str(DefaultLicense), Str(DefaultAuthor))

  /** Python's truth value of a parsed value. */
  predicate Truthy(v: Toml)
  {
    match v
    case Str(s) => s != []
    case Int(i) => i != 0
    case Bool(b) => b
    case Array(xs) => xs != []
    case Table(m) => m != map[]
  }

  /** The Python type name of a parsed value. */
  function TypeName(v: Toml): string
  {
    match v
    case Str(_) => "str"
    case Int(_) => "int"
    case Bool(_) => "bool"
    case Array(_) => "list"
    case Table(_) => "dict"
  }

  /** `load_metadata()`: the `project` table, or an empty table when the file is missing or malformed. */
  function LoadMetadata(f: TomlFile): Toml
  {
    match f
    case Parsed(doc) => if "project" in doc then doc["project"] else EmptyTable
    case _ => EmptyTable
  }

  /** `v.get(key, default)`: only a dict has `.get`. */
  function Get(v: Toml, key: string, default: Toml): Result<Toml>
  {
    if v.Table? then Ok(if key in v.entries then v.entries[key] else default)
    else Err(AttributeError("'" + TypeName(v) + "' object has no attribute 'get'"))
  }

  /** `v[0]`: the first item of a list, the first character of a string. */
  function First(v: Toml): (r: Result<Toml>)
    ensures r.Ok? <==> (v.Array? && v.items != []) || (v.Str? && v.s != [])
    ensures r.Ok? && v.Array? ==> r.value == v.items[0]
  {
    match v
    case Array(xs) => if xs == [] then Err(IndexError) else Ok(xs[0])
    case Str(s) => if s == [] then Err(IndexError) else Ok(Str([s[0]]))
    case Table(_) => Err(KeyError("0"))
    case _ => Err(TypeError("'" + TypeName(v) + "' object is not subscriptable"))
  }

  /** The author: the first author's `name` when there are authors, and the default otherwise. */
  function Author(authors: Toml): Result<Toml>
  {
    if !Truthy(authors) then Ok(Str(DefaultAuthor))
    else
      match First(authors)
      case Err(e) => Err(e)
      case Ok(a) => Get(a, "name", Str(DefaultAuthor))
  }

  /** `d.get(key, default)` on a dict. */
  function Lookup(d: map<string, Toml>, key: string, default: Toml): Toml
  {
    if key in d then d[key] else default
  }

  /**
   * The extraction of the five values from the loaded metadata: `.get` with
   * a default for each, raising when the metadata, the license or the first
   * author is not a dict (the license is looked at before the author).
   */
  function Extract(m: Toml): (r: Result<AppMetadata>)
    ensures r.Ok? <==> m.Table? && Lookup(m.entries, "license", EmptyTable).Table?
                       && Author(Lookup(m.entries, "authors", Array([]))).Ok?
    ensures !m.Table? ==> r == Err(AttributeError("'" + TypeName(m) + "' object has no attribute 'get'"))
  {
    match Get(m, "name", Str(DefaultName))
    case Err(e) => Err(e)
    case Ok(name) =>
      var d := m.entries;
      match Get(Lookup(d, "license", EmptyTable), "text", Str(DefaultLicense))
      case Err(e) => Err(e)
      case Ok(license) =>
        match Author(Lookup(d, "authors", Array([])))
        case Err(e) => Err(e)
        case Ok(author) =>
          Ok(AppMetadata(name, Lookup(d, "version", Str(DefaultVersion)),
                         Lookup(d, "description", Str(DefaultDescription)), license, author))
  }

  /** The module's values for a given `pyproject.toml`. */
  function ModuleMetadata(f: TomlFile): Result<AppMetadata>
  {
    Extract(LoadMetadata(f))
  }

  /** A missing or undecodable file, or one without a `[project]` table, gives every default. */
  lemma UnreadableGivesDefaults(f: TomlFile)
    requires !f.Parsed? || "project" !in f.document
    ensures ModuleMetadata(f) == Ok(Defaults)
  {
  }

  /** A field present in `[project]` is taken as it is; a missing one takes its default. */
  lemma FieldsPassThrough(d: map<string, Toml>)
    requires Extract(Table(d)).Ok?
    ensures var md := Extract(Table(d)).value;
            md.appName == Lookup(d, "name", Str(DefaultName))
            && md.version == Lookup(d, "version", Str(DefaultVersion))
            && md.description == Lookup(d, "description", Str(DefaultDescription))
            && ("license" in d ==> md.license == Lookup(d["license"].entries, "text", Str(DefaultLicense)))
            && ("license" !in d ==> md.license == Str(DefaultLicense))
            && (!Truthy(Lookup(d, "authors", Array([]))) ==> md.author == Str(DefaultAuthor))
  {
  }

  /** A non-empty author list gives the first author's name, or the default when it has none. */
  lemma FirstAuthorWins(d: map<string, Toml>, first: map<string, Toml>, rest: seq<Toml>)
    requires "authors" in d && d["authors"] == Array([Table(first)] + rest)
    requires Lookup(d, "license", EmptyTable).Table?
    ensures Extract(Table(d)).Ok?
    ensures Extract(Table(d)).value.author == Lookup(first, "name", Str(DefaultAuthor))
  {
  }

  /** The `[project]` table a metadata value is written as. */
  function ProjectTable(md: AppMetadata): map<string, Toml>
  {
    map["name" := md.appName, "version" := md.version, "description" := md.description,
        "license" := Table(map["text" := md.license]),
        "authors" := Array([Table(map["name" := md.author])])]
  }

  /** Writing metadata as a `[project]` table and loading it back gives the same metadata. */
  lemma ProjectRoundTrip(md: AppMetadata)
    ensures ModuleMetadata(Parsed(map["project" := Table(ProjectTable(md))])) == Ok(md)
  {
    var d := ProjectTable(md);
    assert Lookup(d, "license", EmptyTable) == Table(map["text" := md.license]);
    assert Lookup(d, "authors", Array([])) == Array([Table(map["name" := md.author])]);
  }

  /** The values a complete `[project]` table gives, as in the loading example. */
  lemma LoadingExample()
    ensures ModuleMetadata(Parsed(map["project" := Table(map[
              "name" := Str("Test App"), "version" := Str("1.2.3"),
              "authors" := Array([Table(map["name" := Str("Test Author")])]),
              "license" := Table(map["text" := Str("MIT")])])]))
            == Ok(AppMetadata(Str("Test App"), Str("1.2.3"), Str(DefaultDescription), Str("MIT"), Str("Test Author")))
  {
  }
}
