/**
 * The language configuration (`lokalise_translation_manager/utils/language_config.py`):
 * `config/supported_languages.json` read once into a module-level cache,
 * with the built-in table when the file is absent or does not parse, and
 * the lookups derived from it: names by code, short code to Lokalise code,
 * and the supported codes. The file is given at each call as what a read
 * of it would find at that moment.
 */
module LanguageConfig {
  import opened Wrappers
  import opened OrderedMaps

  /** One entry of `languages`; a missing field is None. */
  datatype LangEntry = LangEntry(name: Option<string>, lokaliseCode: Option<string>)

  /** The parsed file; `languages` is None when the key is absent. */
  datatype Config = Config(languages: Option<OMap<string, LangEntry>>)

  /** What reading the file finds. */
  datatype ConfigFile = Missing | Unparsable | Parsed(config: Config)

  /** `DEFAULT_LANGUAGES`. */
  const DefaultLanguages: OMap<string, LangEntry> := [
    ("en", LangEntry(Some("English"), Some("en"))),
    ("de", LangEntry(Some("German"), Some("de"))),
    ("fr", LangEntry(Some("French"), Some("fr"))),
    ("it", LangEntry(Some("Italian"), Some("it"))),
    ("pl", LangEntry(Some("Polish"), Some("pl"))),
    ("sv", LangEntry(Some("Swedish"), Some("sv"))),
    ("nb", LangEntry(Some("Norwegian (Bokmal)"), Some("nb"))),
    ("da", LangEntry(Some("Danish"), Some("da"))),
    ("fi", LangEntry(Some("Finnish"), Some("fi"))),
    ("lt", LangEntry(Some("Lithuanian"), Some("lt_LT"))),
    ("lv", LangEntry(Some("Latvian"), Some("lv_LV"))),
    ("et", LangEntry(Some("Estonian"), Some("et_EE"))),
    ("tr", LangEntry(Some("Turkish"), Some("tr_TR"))),
    ("ar", LangEntry(Some("Arabic"), Some("ar"))),
    ("el", LangEntry(Some("Greek"), Some("el")))]

  /** What the cache holds after a read of `file`. */
  function FromFile(file: ConfigFile): Config {
    match file
    case Parsed(c) => c
    case _ => Config(Some(DefaultLanguages))
  }

  /** `config.get("languages", DEFAULT_LANGUAGES)`. */
  function LanguagesOf(c: Config): OMap<string, LangEntry> {
    if c.languages.Some? then c.languages.value else DefaultLanguages
  }

  /** `data.get("name", code)`. */
  function NameOf(e: (string, LangEntry)): string {
    if e.1.name.Some? then e.1.name.value else e.0
  }

  /** `data.get("lokalise_code", code)`. */
  function LokaliseOf(e: (string, LangEntry)): string {
    if e.1.lokaliseCode.Some? then e.1.lokaliseCode.value else e.0
  }

  /** The `names` loop of `get_language_names` over the first |langs| entries. */
  function Names(langs: OMap<string, LangEntry>): map<string, string> {
    if |langs| == 0 then map[]
    else
      var e := langs[|langs| - 1];
      var names := Names(langs[..|langs| - 1])[e.0 := NameOf(e)];
      if LokaliseOf(e) != e.0 then names[LokaliseOf(e) := NameOf(e)] else names
  }

  /** The `mappings` loop of `get_lokalise_mappings`. */
  function Mappings(langs: OMap<string, LangEntry>): map<string, string> {
    if |langs| == 0 then map[]
    else
      var e := langs[|langs| - 1];
      Mappings(langs[..|langs| - 1])[e.0 := LokaliseOf(e)]
  }

  /** The `names` loop: each entry under its code, then under its Lokalise code when that differs. */
  method BuildNames(languages: OMap<string, LangEntry>) returns (names: map<string, string>)
    ensures names == Names(languages)
  {
    names := map[];
    for i := 0 to |languages|
      invariant names == Names(languages[..i])
    {
      assert languages[..i + 1][..i] == languages[..i];
      var name := NameOf(languages[i]);
      var lokaliseCode := LokaliseOf(languages[i]);
      names := names[languages[i].0 := name];
      if lokaliseCode != languages[i].0 {
        names := names[lokaliseCode := name];
      }
    }
    assert languages[..|languages|] == languages;
  }

  /** The `mappings` loop: each code to its Lokalise code. */
  method BuildMappings(languages: OMap<string, LangEntry>) returns (mappings: map<string, string>)
    ensures mappings == Mappings(languages)
  {
    mappings := map[];
    for i := 0 to |languages|
      invariant mappings == Mappings(languages[..i])
    {
      assert languages[..i + 1][..i] == languages[..i];
      mappings := mappings[languages[i].0 := LokaliseOf(languages[i])];
    }
    assert languages[..|languages|] == languages;
  }

  /** Entry `i` is the last to write `x` into `names`: under its code or its Lokalise code. */
  predicate LastWriter(langs: OMap<string, LangEntry>, x: string, i: nat) {
    i < |langs| && (langs[i].0 == x || LokaliseOf(langs[i]) == x)
    && forall j :: i < j < |langs| ==> langs[j].0 != x && LokaliseOf(langs[j]) != x
  }

  /** A name is found for exactly the codes and Lokalise codes of the entries. */
  lemma {:induction false} NamesKeys(langs: OMap<string, LangEntry>, x: string)
    ensures x in Names(langs) <==> exists i :: 0 <= i < |langs| && (langs[i].0 == x || LokaliseOf(langs[i]) == x)
  {
    if |langs| > 0 {
      var init := langs[..|langs| - 1];
      var e := langs[|langs| - 1];
      NamesKeys(init, x);
      if x in Names(init) {
        var i :| 0 <= i < |init| && (init[i].0 == x || LokaliseOf(init[i]) == x);
        assert langs[i] == init[i];
      }
      if exists i :: 0 <= i < |langs| && (langs[i].0 == x || LokaliseOf(langs[i]) == x) {
        var i :| 0 <= i < |langs| && (langs[i].0 == x || LokaliseOf(langs[i]) == x);
        if i < |init| { assert langs[i] == init[i]; }
      }
    }
  }

  /** The name found is that of the last entry carrying the code. */
  lemma {:induction false} NamesLastWriter(langs: OMap<string, LangEntry>, x: string, i: nat)
    requires LastWriter(langs, x, i)
    ensures x in Names(langs) && Names(langs)[x] == NameOf(langs[i])
  {
    var init := langs[..|langs| - 1];
    if i < |init| {
      assert forall j :: i < j < |init| ==> init[j] == langs[j];
      assert LastWriter(init, x, i);
      NamesLastWriter(init, x, i);
    }
  }

  /** Every configured code has a Lokalise code: its own, or itself when none is given. */
  lemma {:induction false} MappingsOfEntries(langs: OMap<string, LangEntry>, i: nat)
    requires Valid(langs) && i < |langs|
    ensures langs[i].0 in Mappings(langs) && Mappings(langs)[langs[i].0] == LokaliseOf(langs[i])
  {
    var init := langs[..|langs| - 1];
    assert Valid(init);
    if i < |init| {
      MappingsOfEntries(init, i);
      assert langs[|langs| - 1].0 != langs[i].0;
    }
  }

  /** The mappings are keyed by exactly the configured codes. */
  lemma {:induction false} MappingsKeys(langs: OMap<string, LangEntry>)
    ensures Mappings(langs).Keys == KeySet(langs)
  {
    if |langs| > 0 {
      var init := langs[..|langs| - 1];
      MappingsKeys(init);
      GetSnoc(init, langs[|langs| - 1], langs[|langs| - 1].0);
      assert langs == init + [langs[|langs| - 1]];
      forall k ensures HasKey(langs, k) <==> HasKey(init, k) || k == langs[|langs| - 1].0 {
        GetSnoc(init, langs[|langs| - 1], k);
      }
    }
  }

  /** `names.get(code, code)`. */
  function LanguageName(names: map<string, string>, code: string): string {
    if code in names then names[code] else code
  }

  /** `mappings.get(short_code, short_code)`. */
  function LokaliseCode(mappings: map<string, string>, code: string): string {
    if code in mappings then mappings[code] else code
  }

  /** Unknown codes come back unchanged from both lookups. */
  lemma UnknownCodesUnchanged(langs: OMap<string, LangEntry>, code: string)
    requires forall i :: 0 <= i < |langs| ==> langs[i].0 != code && LokaliseOf(langs[i]) != code
    ensures LanguageName(Names(langs), code) == code
    ensures LokaliseCode(Mappings(langs), code) == code
  {
    NamesKeys(langs, code);
    MappingsKeys(langs);
  }

  /** `_config_cache` and the functions that read it. */
  class LanguageConfigCache {
    var cache: Option<Config>

    constructor ()
      ensures cache == None
    {
      cache := None;
    }

    /** `load_language_config`: the cache unless empty or `forceReload`; else the file, cached. */
    method LoadLanguageConfig(file: ConfigFile, forceReload: bool) returns (config: Config)
      modifies this
      ensures old(cache).Some? && !forceReload ==> config == old(cache).value && cache == old(cache)
      ensures old(cache).None? || forceReload ==> config == FromFile(file) && cache == Some(config)
    {
      if cache.Some? && !forceReload {
        return cache.value;
      }
      config := FromFile(file);
      cache := Some(config);
    }

    /** `reload_config`. */
    method ReloadConfig(file: ConfigFile)
      modifies this
      ensures cache == Some(FromFile(file))
    {
      cache := None;
      var _ := LoadLanguageConfig(file, true);
    }

    /** `get_language_names`. */
    method GetLanguageNames(file: ConfigFile) returns (names: map<string, string>)
      modifies this
      ensures cache.Some? && cache == if old(cache).Some? then old(cache) else Some(FromFile(file))
      ensures names == Names(LanguagesOf(cache.value))
    {
      var config := LoadLanguageConfig(file, false);
      names := BuildNames(LanguagesOf(config));
    }

    /** `get_lokalise_mappings`. */
    method GetLokaliseMappings(file: ConfigFile) returns (mappings: map<string, string>)
      modifies this
      ensures cache.Some? && cache == if old(cache).Some? then old(cache) else Some(FromFile(file))
      ensures mappings == Mappings(LanguagesOf(cache.value))
    {
      var config := LoadLanguageConfig(file, false);
      mappings := BuildMappings(LanguagesOf(config));
    }

    /** `get_supported_languages`: the configured codes, in order. */
    method GetSupportedLanguages(file: ConfigFile) returns (codes: seq<string>)
      modifies this
      ensures cache.Some? && cache == if old(cache).Some? then old(cache) else Some(FromFile(file))
      ensures codes == Keys(LanguagesOf(cache.value))
    {
      var config := LoadLanguageConfig(file, false);
      codes := Keys(LanguagesOf(config));
    }

    /** `get_language_name`. */
    method GetLanguageName(file: ConfigFile, code: string) returns (name: string)
      modifies this
      ensures cache.Some? && cache == if old(cache).Some? then old(cache) else Some(FromFile(file))
      ensures name == LanguageName(Names(LanguagesOf(cache.value)), code)
    {
      var names := GetLanguageNames(file);
      name := if code in names then names[code] else code;
    }

    /** `get_lokalise_code`. */
    method GetLokaliseCode(file: ConfigFile, code: string) returns (lokaliseCode: string)
      modifies this
      ensures cache.Some? && cache == if old(cache).Some? then old(cache) else Some(FromFile(file))
      ensures lokaliseCode == LokaliseCode(Mappings(LanguagesOf(cache.value)), code)
    {
      var mappings := GetLokaliseMappings(file);
      lokaliseCode := if code in mappings then mappings[code] else code;
    }
  }

  /** A missing or unreadable file falls back to the built-in table. */
  lemma FallbackIsDefault(file: ConfigFile)
    requires !file.Parsed?
    ensures LanguagesOf(FromFile(file)) == DefaultLanguages
  {
  }

  /** Once cached, later reads ignore the file until a forced reload. */
  method CachedConfigSticks(file1: ConfigFile, file2: ConfigFile) returns (first: Config, second: Config)
    ensures first == FromFile(file1) && second == first
  {
    var c := new LanguageConfigCache();
    first := c.LoadLanguageConfig(file1, false);
    second := c.LoadLanguageConfig(file2, false);
  }
}
