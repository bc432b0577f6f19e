/**
 * A new user's section and the class-level starter settings.  The handler
 * adds the `STARTER_CONFIG` dict object itself as the section of a user the
 * file does not know, so a later assignment through that section changes the
 * defaults every later handler of the same process starts from.  The rest of
 * the model copies the defaults, as the missing-file branch does.
 */
module StarterAliasing {
  import opened Results
  import opened ConfigModel
  import opened ConfigHandlers

  /** A Python dict object holding a section: assigning it to a name shares it. */
  class SectionObject {
    var fields: Section

    constructor (fields: Section)
      ensures this.fields == fields
    {
      this.fields := fields;
    }
  }

  /**
   * The handler as written: its document maps each user to a section object,
   * and a user the document lacks is given the starter object itself.
   */
  class AliasedHandler {
    const username: string
    var config: map<string, SectionObject>

    /**
     * `__init__` from the loaded document (`None` when the file is missing)
     * and the class-level `STARTER_CONFIG` object.
     */
    constructor (username: string, stored: Option<map<string, SectionObject>>, starter: SectionObject)
      ensures this.username == username && username in config
      ensures stored.None? ==> DefaultUser in config && fresh(config[DefaultUser])
                               && config[DefaultUser].fields == starter.fields
      ensures stored.None? ==> config.Keys == {DefaultUser, username}
      ensures stored.Some? ==> config.Keys == stored.value.Keys + {username}
                               && forall u :: u in stored.value ==> config[u] == stored.value[u]
      ensures (stored.None? && username != DefaultUser) || (stored.Some? && username !in stored.value)
              ==> config[username] == starter
    {
      this.username := username;
      var loaded: map<string, SectionObject>;
      if stored.None? {
        var copy := new SectionObject(starter.fields);
        loaded := map[DefaultUser := copy];
      } else {
        loaded := stored.value;
      }
      if username !in loaded {
        loaded := loaded[username := starter];
      }
      config := loaded;
    }

    /** `set_config_field` on the object that is the user's section. */
    method SetConfigField(field: Field, value: Value)
      requires username in config
      modifies config[username]
      ensures config == old(config)
      ensures config[username].fields == old(config[username].fields)[field := value]
    {
      config[username].fields := config[username].fields[field := value];
    }
  }

  /**
   * Two handlers of one process for a user that neither of their files knows
   * (the older handler's test and application files, say): the theme set
   * through the first is the theme the second starts with, because both
   * sections are the starter object.
   */
  method AliasedSecondHandler(user: string, storedA: Option<map<string, SectionObject>>,
                              storedB: Option<map<string, SectionObject>>, theme: string)
    returns (first: AliasedHandler, second: AliasedHandler)
    requires user != DefaultUser
    requires storedA.Some? ==> user !in storedA.value
    requires storedB.Some? ==> user !in storedB.value
    ensures user in first.config && user in second.config
    ensures second.config[user] == first.config[user]
    ensures ThemeFilename in second.config[user].fields && second.config[user].fields[ThemeFilename] == Text(theme)
    ensures theme != "colors_light.qss" ==> second.config[user].fields != StarterConfig
  {
    var starter := new SectionObject(StarterConfig);
    first := new AliasedHandler(user, storedA, starter);
    first.SetConfigField(ThemeFilename, Text(theme));
    second := new AliasedHandler(user, storedB, starter);
  }

  /**
   * The same two handlers with sections held by value: whatever is set
   * through the first, the second starts from the starter settings.
   */
  method SecondHandlerStartsFromDefaults(pathA: string, pathB: string, user: string,
                                         storedA: Option<Document>, storedB: Option<Document>, theme: string)
    returns (first: ConfigHandler, second: ConfigHandler)
    requires storedA.Some? ==> user !in storedA.value
    requires storedB.Some? ==> user !in storedB.value
    ensures first.Valid() && second.Valid()
    ensures Theme(first.Section()) == theme
    ensures second.Section() == StarterConfig
  {
    first := new ConfigHandler(pathA, user, storedA);
    first.SetThemeFilename(theme);
    second := new ConfigHandler(pathB, user, storedB);
  }
}
