/**
 * The plugin configuration manager (`plugin_manager.py`): which plugins are
 * enabled, a single type per plugin file by marker priority, discovery of
 * the plugin directory, and the reconciliation of `plugins_config.json`
 * with what was discovered. The configuration is a value; reading and
 * writing the JSON file are left to the caller.
 */
module PluginManager {
  import opened Wrappers
  import opened Text
  import opened OrderedMaps
  import opened TranslatePlugins

  datatype PluginType = ActionPlugin | ExtensionPlugin | PromptPlugin

  /**
   * One entry of `config["plugins"]`: `enabled` and `type` may be absent;
   * `missing` is the `_missing` flag (`false` when the key is absent).
   */
  datatype Entry = Entry(enabled: Option<bool>, kind: Option<PluginType>, description: string,
                         autoDiscovered: bool, missing: bool)

  /**
   * The configuration: the plugin entries in file order (an absent
   * `plugins` key reads as no entries) and the settings that may be absent.
   */
  datatype Config = Config(plugins: OMap<string, Entry>, autoDiscover: Option<bool>,
                           warnOnDisabled: Option<bool>, failOnError: Option<bool>)

  /** `DEFAULT_CONFIG`: no plugins, auto-discovery on, warnings on, plugin errors not fatal. */
  const DefaultConfig := Config([], Some(true), Some(true), Some(false))

  /** What reading `plugins_config.json` finds. */
  datatype ConfigFile = NoConfigFile | Unparsable | Parsed(config: Config)

  /** `load_plugin_config`: the parsed file, or the default when it is missing or unparsable. */
  function LoadPluginConfig(f: ConfigFile): (r: Config)
    ensures f.Parsed? ==> r == f.config
    ensures !f.Parsed? ==> r == DefaultConfig && r.plugins == [] && r.autoDiscover == Some(true)
                           && r.failOnError == Some(false)
  {
    match f
    case Parsed(c) => c
    case _ => DefaultConfig
  }

  function OrTrue(b: Option<bool>): bool {
    match b
    case Some(v) => v
    case None => true
  }

  /**
   * `is_plugin_enabled`: an unlisted plugin follows
   * `auto_discover_new_plugins` (default on); a listed one its own
   * `enabled` (default on).
   */
  predicate IsPluginEnabled(name: string, config: Config) {
    match Get(config.plugins, name)
    case None => OrTrue(config.autoDiscover)
    case Some(e) => OrTrue(e.enabled)
  }

  /** Only an explicit `false` disables a plugin: the lookup can say no in exactly two ways. */
  lemma EnabledUnlessSwitchedOff(name: string, config: Config)
    ensures !IsPluginEnabled(name, config) <==>
            (!HasKey(config.plugins, name) && config.autoDiscover == Some(false))
            || (HasKey(config.plugins, name) && Get(config.plugins, name).value.enabled == Some(false))
  {
  }

  /** With the default configuration every plugin is enabled. */
  lemma DefaultEnablesAll(name: string, f: ConfigFile)
    requires !f.Parsed?
    ensures IsPluginEnabled(name, LoadPluginConfig(f))
  {
  }

  /**
   * `detect_plugin_type`: ACTION before EXTENSION before PROMPT; nothing
   * for an unreadable or unmarked file.
   */
  function DetectPluginType(content: Option<string>): Option<PluginType> {
    match content
    case None => None
    case Some(text) =>
      if Contains(text, ActionMarker) then Some(ActionPlugin)
      else if Contains(text, ExtensionMarker) then Some(ExtensionPlugin)
      else if Contains(text, PromptMarker) then Some(PromptPlugin)
      else None
  }

  /** Exactly one type per marked file, by priority; `None` exactly when no marker is readable. */
  lemma DetectPriority(content: Option<string>)
    ensures var r := DetectPluginType(content);
      (r == Some(ActionPlugin) <==> content.Some? && Contains(content.value, ActionMarker))
      && (r == Some(ExtensionPlugin) <==> content.Some? && !Contains(content.value, ActionMarker)
                                          && Contains(content.value, ExtensionMarker))
      && (r == Some(PromptPlugin) <==> content.Some? && !Contains(content.value, ActionMarker)
                                       && !Contains(content.value, ExtensionMarker) && Contains(content.value, PromptMarker))
      && (r.None? <==> content.None? || (!Contains(content.value, ActionMarker)
                       && !Contains(content.value, ExtensionMarker) && !Contains(content.value, PromptMarker)))
  {
  }

  /** The files other than `__init__.py` that `detect` gives a type, with that type, in directory order. */
  function Typed(files: seq<PluginFile>, detect: Option<string> -> Option<PluginType>): seq<(string, PluginType)> {
    if |files| == 0 then []
    else
      var f := files[|files| - 1];
      var t := detect(f.content);
      Typed(files[..|files| - 1], detect) + (if f.name != InitFile && t.Some? then [(f.name, t.value)] else [])
  }

  /** Entering pairs one by one into a dictionary. */
  function Collect<V>(pairs: seq<(string, V)>): OMap<string, V> {
    if |pairs| == 0 then [] else Put(Collect(pairs[..|pairs| - 1]), pairs[|pairs| - 1].0, pairs[|pairs| - 1].1)
  }

  /** The plugins found, file name to type, in directory order, typing each file with `detect`. */
  function DiscoverWith(files: seq<PluginFile>, detect: Option<string> -> Option<PluginType>): OMap<string, PluginType> {
    if |files| == 0 then []
    else
      var acc := DiscoverWith(files[..|files| - 1], detect);
      var f := files[|files| - 1];
      var t := detect(f.content);
      if f.name != InitFile && t.Some? then Put(acc, f.name, t.value) else acc
  }

  /** The plugins `discover_all_plugins` finds, file name to type, in directory order. */
  function DiscoverAll(files: seq<PluginFile>): OMap<string, PluginType> {
    DiscoverWith(files, DetectPluginType)
  }

  /** `discover_all_plugins` (`None`: the plugin directory does not exist). */
  method DiscoverAllPlugins(dir: Option<seq<PluginFile>>) returns (discovered: OMap<string, PluginType>)
    ensures discovered == (if dir.None? then [] else DiscoverAll(dir.value))
  {
    discovered := [];
    if dir.None? {
      return;
    }
    var files := dir.value;
    var i := 0;
    while i < |files|
      invariant 0 <= i <= |files|
      invariant discovered == DiscoverWith(files[..i], DetectPluginType)
    {
      assert files[..i + 1][..i] == files[..i];
      var f := files[i];
      var t := DetectPluginType(f.content);
      if f.name != InitFile && t.Some? {
        discovered := Put(discovered, f.name, t.value);
      }
      i := i + 1;
    }
    assert files[..|files|] == files;
  }

  lemma CollectSnoc<V>(pairs: seq<(string, V)>, p: (string, V))
    ensures Collect(pairs + [p]) == Put(Collect(pairs), p.0, p.1)
  {
    assert (pairs + [p])[..|pairs|] == pairs;
  }

  /** Discovery enters the typed files one by one. */
  lemma {:induction false} DiscoverCollects(files: seq<PluginFile>, detect: Option<string> -> Option<PluginType>)
    ensures DiscoverWith(files, detect) == Collect(Typed(files, detect))
  {
    if |files| > 0 {
      var init := files[..|files| - 1];
      DiscoverCollects(init, detect);
      var f := files[|files| - 1];
      var t := detect(f.content);
      if f.name != InitFile && t.Some? {
        assert Typed(files, detect) == Typed(init, detect) + [(f.name, t.value)];
        CollectSnoc(Typed(init, detect), (f.name, t.value));
      } else {
        assert Typed(files, detect) == Typed(init, detect) + [];
        assert Typed(init, detect) + [] == Typed(init, detect);
      }
    }
  }

  /** The dictionary has each name once, exactly the names of the pairs, each with its last value. */
  lemma CollectMembers<V>(pairs: seq<(string, V)>, name: string)
    ensures Valid(Collect(pairs))
    ensures HasKey(Collect(pairs), name) <==> exists i :: 0 <= i < |pairs| && pairs[i].0 == name
    ensures HasKey(Collect(pairs), name) ==> exists i :: 0 <= i < |pairs| && pairs[i] == (name, Get(Collect(pairs), name).value)
  {
    CollectValid(pairs);
    CollectKeys(pairs, name);
    CollectValue(pairs, name);
  }

  lemma {:induction false} CollectValid<V>(pairs: seq<(string, V)>)
    ensures Valid(Collect(pairs))
  {
    if |pairs| > 0 {
      CollectValid(pairs[..|pairs| - 1]);
    }
  }

  lemma {:induction false} CollectKeys<V>(pairs: seq<(string, V)>, name: string)
    ensures HasKey(Collect(pairs), name) <==> exists i :: 0 <= i < |pairs| && pairs[i].0 == name
  {
    var n := |pairs|;
    if n > 0 {
      var init := pairs[..n - 1];
      CollectKeys(init, name);
      PutHasKey(Collect(init), pairs[n - 1].0, pairs[n - 1].1, name);
      if exists i :: 0 <= i < |init| && init[i].0 == name {
        var i :| 0 <= i < |init| && init[i].0 == name;
        assert pairs[i] == init[i];
      }
      if exists i :: 0 <= i < n && pairs[i].0 == name {
        var i :| 0 <= i < n && pairs[i].0 == name;
        if i < n - 1 { assert init[i] == pairs[i]; }
      }
    }
  }

  lemma {:induction false} CollectValue<V>(pairs: seq<(string, V)>, name: string)
    ensures HasKey(Collect(pairs), name) ==> exists i :: 0 <= i < |pairs| && pairs[i] == (name, Get(Collect(pairs), name).value)
  {
    var n := |pairs|;
    if n > 0 {
      var init := pairs[..n - 1];
      CollectValue(init, name);
      if name == pairs[n - 1].0 {
        assert pairs[n - 1] == (name, Get(Collect(pairs), name).value);
      } else if HasKey(Collect(init), name) {
        var i :| 0 <= i < |init| && init[i] == (name, Get(Collect(init), name).value);
        assert pairs[i] == init[i];
      }
    }
  }

  lemma {:induction false} TypedMembers(files: seq<PluginFile>, detect: Option<string> -> Option<PluginType>, p: (string, PluginType))
    ensures p in Typed(files, detect) <==>
            exists i :: 0 <= i < |files| && files[i].name == p.0 && p.0 != InitFile && detect(files[i].content) == Some(p.1)
  {
    var n := |files|;
    if n > 0 {
      var init := files[..n - 1];
      TypedMembers(init, detect, p);
      if exists i :: 0 <= i < |init| && init[i].name == p.0 && p.0 != InitFile && detect(init[i].content) == Some(p.1) {
        var i :| 0 <= i < |init| && init[i].name == p.0 && p.0 != InitFile && detect(init[i].content) == Some(p.1);
        assert files[i] == init[i];
      }
      if exists i :: 0 <= i < n && files[i].name == p.0 && p.0 != InitFile && detect(files[i].content) == Some(p.1) {
        var i :| 0 <= i < n && files[i].name == p.0 && p.0 != InitFile && detect(files[i].content) == Some(p.1);
        if i < n - 1 { assert init[i] == files[i]; }
      }
    }
  }

  /**
   * A name is discovered exactly when some file of that name other than
   * `__init__.py` gets a type; its type is that of such a file, and the
   * result has each name once.
   */
  lemma DiscoverMembers(files: seq<PluginFile>, detect: Option<string> -> Option<PluginType>, name: string)
    ensures Valid(DiscoverWith(files, detect))
    ensures HasKey(DiscoverWith(files, detect), name) <==>
            exists i :: 0 <= i < |files| && files[i].name == name && name != InitFile && detect(files[i].content).Some?
    ensures HasKey(DiscoverWith(files, detect), name) ==>
            exists i :: 0 <= i < |files| && files[i].name == name
                        && Get(DiscoverWith(files, detect), name) == detect(files[i].content)
  {
    var ps := Typed(files, detect);
    DiscoverCollects(files, detect);
    CollectMembers(ps, name);
    if HasKey(Collect(ps), name) {
      var j :| 0 <= j < |ps| && ps[j] == (name, Get(Collect(ps), name).value);
      TypedMembers(files, detect, ps[j]);
    }
    if exists i :: 0 <= i < |files| && files[i].name == name && name != InitFile && detect(files[i].content).Some? {
      var i :| 0 <= i < |files| && files[i].name == name && name != InitFile && detect(files[i].content).Some?;
      TypedMembers(files, detect, (name, detect(files[i].content).value));
    }
  }

  /**
   * A name is discovered exactly when some file of that name other than
   * `__init__.py` carries a marker; its type is that of such a file, and
   * the result has each name once.
   */
  lemma DiscoverAllMembers(files: seq<PluginFile>, name: string)
    ensures Valid(DiscoverAll(files))
    ensures HasKey(DiscoverAll(files), name) <==>
            exists i :: 0 <= i < |files| && files[i].name == name && name != InitFile && DetectPluginType(files[i].content).Some?
    ensures HasKey(DiscoverAll(files), name) ==>
            exists i :: 0 <= i < |files| && files[i].name == name
                        && Get(DiscoverAll(files), name) == DetectPluginType(files[i].content)
  {
    DiscoverMembers(files, DetectPluginType, name);
  }

  /** The entry `sync_plugin_config` adds for a newly discovered plugin. */
  function NewEntry(t: PluginType): Entry {
    Entry(Some(true), Some(t), "Auto-discovered " + TypeName(t) + " plugin", true, false)
  }

  /** The type as the configuration file spells it. */
  function TypeName(t: PluginType): string {
    match t
    case ActionPlugin => "ACTION"
    case ExtensionPlugin => "EXTENSION"
    case PromptPlugin => "PROMPT"
  }

  /** Adding the discovered plugins that have no entry yet, in discovery order. */
  function AddNew(plugins: OMap<string, Entry>, discovered: OMap<string, PluginType>): OMap<string, Entry> {
    if |discovered| == 0 then plugins
    else
      var acc := AddNew(plugins, discovered[..|discovered| - 1]);
      var (name, t) := discovered[|discovered| - 1];
      if HasKey(acc, name) then acc else acc + [(name, NewEntry(t))]
  }

  /** The names `AddNew` added, in order. */
  function NewNames(plugins: OMap<string, Entry>, discovered: OMap<string, PluginType>): seq<string> {
    if |discovered| == 0 then []
    else
      var acc := AddNew(plugins, discovered[..|discovered| - 1]);
      var name := discovered[|discovered| - 1].0;
      NewNames(plugins, discovered[..|discovered| - 1]) + (if HasKey(acc, name) then [] else [name])
  }

  /** The names of the entries the discovery did not find, in entry order. */
  function MissingNames(plugins: OMap<string, Entry>, discovered: OMap<string, PluginType>): seq<string> {
    if |plugins| == 0 then []
    else
      MissingNames(plugins[..|plugins| - 1], discovered)
      + (if HasKey(discovered, plugins[|plugins| - 1].0) then [] else [plugins[|plugins| - 1].0])
  }

  /** The flag loop: `_missing` set on every entry the discovery did not find. */
  function MarkMissing(plugins: OMap<string, Entry>, discovered: OMap<string, PluginType>): OMap<string, Entry> {
    seq(|plugins|, i requires 0 <= i < |plugins| =>
          (plugins[i].0, if HasKey(discovered, plugins[i].0) then plugins[i].1 else plugins[i].1.(missing := true)))
  }

  /** The clearing loop: `_missing` removed from every entry the discovery found. */
  function ClearFound(plugins: OMap<string, Entry>, discovered: OMap<string, PluginType>): OMap<string, Entry> {
    seq(|plugins|, i requires 0 <= i < |plugins| =>
          (plugins[i].0, if HasKey(discovered, plugins[i].0) then plugins[i].1.(missing := false) else plugins[i].1))
  }

  /** The intended outcome of the two loops: each entry flagged `_missing` exactly when it was not discovered. */
  function Flagged(plugins: OMap<string, Entry>, discovered: OMap<string, PluginType>): OMap<string, Entry> {
    seq(|plugins|, i requires 0 <= i < |plugins| =>
          (plugins[i].0, plugins[i].1.(missing := !HasKey(discovered, plugins[i].0))))
  }

  /** The configuration `sync_plugin_config` saves, with its two name lists. */
  datatype SyncResult = SyncResult(config: Config, newPlugins: seq<string>, missingPlugins: seq<string>)

  function Sync(config: Config, discovered: OMap<string, PluginType>): SyncResult {
    var added := if OrTrue(config.autoDiscover) then AddNew(config.plugins, discovered) else config.plugins;
    var addedNames := if OrTrue(config.autoDiscover) then NewNames(config.plugins, discovered) else [];
    var flagged := ClearFound(MarkMissing(added, discovered), discovered);
    SyncResult(config.(plugins := flagged), addedNames, MissingNames(added, discovered))
  }

  /**
   * `sync_plugin_config`: add the new plugins (only with auto-discovery
   * on), flag every entry the discovery missed, and clear the flag on the
   * entries it found. The result is what gets saved. The entries form a
   * Python dictionary, so each name occurs once.
   */
  method SyncPluginConfig(config: Config, discovered: OMap<string, PluginType>)
    returns (saved: Config, newPlugins: seq<string>, missingPlugins: seq<string>)
    requires Valid(config.plugins)
    ensures SyncResult(saved, newPlugins, missingPlugins) == Sync(config, discovered)
  {
    var plugins := config.plugins;
    newPlugins := [];
    if OrTrue(config.autoDiscover) {
      plugins, newPlugins := AddDiscovered(plugins, discovered);
    }
    AddNewValid(config.plugins, discovered);
    var marked;
    marked, missingPlugins := MarkMissingPlugins(plugins, discovered);
    var cleared := ClearFoundPlugins(marked, discovered);
    saved := config.(plugins := cleared);
  }

  /** First loop of `sync_plugin_config`: `setdefault` for each discovered name without an entry. */
  method AddDiscovered(plugins: OMap<string, Entry>, discovered: OMap<string, PluginType>)
    returns (added: OMap<string, Entry>, newPlugins: seq<string>)
    ensures added == AddNew(plugins, discovered) && newPlugins == NewNames(plugins, discovered)
  {
    added, newPlugins := plugins, [];
    var i := 0;
    while i < |discovered|
      invariant 0 <= i <= |discovered|
      invariant added == AddNew(plugins, discovered[..i])
      invariant newPlugins == NewNames(plugins, discovered[..i])
    {
      assert discovered[..i + 1][..i] == discovered[..i];
      var (name, t) := discovered[i];
      if !HasKey(added, name) {
        added := added + [(name, NewEntry(t))];
        newPlugins := newPlugins + [name];
      }
      i := i + 1;
    }
    assert discovered[..|discovered|] == discovered;
  }

  /** Second loop: every entry not discovered is reported and gets `_missing = True`, in place. */
  method MarkMissingPlugins(plugins: OMap<string, Entry>, discovered: OMap<string, PluginType>)
    returns (marked: OMap<string, Entry>, missing: seq<string>)
    ensures marked == MarkMissing(plugins, discovered) && missing == MissingNames(plugins, discovered)
  {
    marked, missing := plugins, [];
    var j := 0;
    while j < |plugins|
      invariant 0 <= j <= |plugins| && |marked| == |plugins|
      invariant missing == MissingNames(plugins[..j], discovered)
      invariant forall k :: 0 <= k < j ==> marked[k] == MarkMissing(plugins, discovered)[k]
      invariant forall k :: j <= k < |plugins| ==> marked[k] == plugins[k]
    {
      assert plugins[..j + 1][..j] == plugins[..j];
      var (name, e) := marked[j];
      if !HasKey(discovered, name) {
        missing := missing + [name];
        marked := marked[j := (name, e.(missing := true))];
      }
      j := j + 1;
    }
    assert plugins[..|plugins|] == plugins;
  }

  /** Third loop: `_missing` popped from the entry of every discovered name that has one. */
  method ClearFoundPlugins(plugins: OMap<string, Entry>, discovered: OMap<string, PluginType>)
    returns (cleared: OMap<string, Entry>)
    requires Valid(plugins)
    ensures cleared == ClearFound(plugins, discovered)
  {
    cleared := plugins;
    var d := 0;
    while d < |discovered|
      invariant 0 <= d <= |discovered|
      invariant cleared == ClearFound(plugins, discovered[..d])
    {
      var name := discovered[d].0;
      var k := IndexOf(cleared, name);
      ClearStep(plugins, discovered, d, cleared);
      if k < |cleared| {
        cleared := cleared[k := (name, cleared[k].1.(missing := false))];
      }
      d := d + 1;
    }
    assert discovered[..|discovered|] == discovered;
  }

  /** One turn of the clearing loop keeps `cleared` equal to the clearing of the names seen so far. */
  lemma ClearStep(plugins: OMap<string, Entry>, discovered: OMap<string, PluginType>, d: nat, cleared: OMap<string, Entry>)
    requires Valid(plugins) && d < |discovered|
    requires cleared == ClearFound(plugins, discovered[..d])
    ensures var name := discovered[d].0;
      var k := IndexOf(cleared, name);
      var next := if k < |cleared| then cleared[k := (name, cleared[k].1.(missing := false))] else cleared;
      next == ClearFound(plugins, discovered[..d + 1])
  {
    var name := discovered[d].0;
    var k := IndexOf(cleared, name);
    var next := if k < |cleared| then cleared[k := (name, cleared[k].1.(missing := false))] else cleared;
    var after := ClearFound(plugins, discovered[..d + 1]);
    forall k' | 0 <= k' < |plugins| ensures next[k'] == after[k'] {
      PrefixHasKey(discovered, d, plugins[k'].0);
      assert cleared[k'].0 == plugins[k'].0;
      if k < |cleared| && k' != k {
        assert cleared[k].0 == plugins[k].0;
      }
      if k == |cleared| && plugins[k'].0 == name {
        assert false;
      }
    }
  }

  lemma PrefixHasKey<V>(m: OMap<string, V>, d: nat, x: string)
    requires d < |m|
    ensures HasKey(m[..d + 1], x) <==> HasKey(m[..d], x) || x == m[d].0
  {
    assert Keys(m[..d + 1]) == Keys(m[..d]) + [m[d].0];
  }

  lemma KeysSnoc<V>(m: OMap<string, V>, e: (string, V))
    ensures Keys(m + [e]) == Keys(m) + [e.0]
  {
  }

  /** The last entry of a dictionary is not the key of an earlier one. */
  lemma LastKeyFresh<V>(m: OMap<string, V>)
    requires Valid(m) && |m| > 0
    ensures !HasKey(m[..|m| - 1], m[|m| - 1].0)
  {
    var init := m[..|m| - 1];
    forall j | 0 <= j < |init| ensures Keys(init)[j] != m[|m| - 1].0 {
      assert init[j] == m[j];
    }
  }

  lemma GetNew<V>(m: OMap<string, V>, k: string, v: V)
    requires !HasKey(m, k)
    ensures Get(m + [(k, v)], k) == Some(v)
  {
    var r := m + [(k, v)];
    KeysSnoc(m, (k, v));
    assert Keys(r)[|m|] == k;
  }

  // ---------------------------------------------------------------------
  // Properties of the reconciliation

  /** `AddNew` keeps the existing entries as a prefix and appends the new names' entries. */
  lemma {:induction false} AddNewPrefix(plugins: OMap<string, Entry>, discovered: OMap<string, PluginType>)
    ensures var r := AddNew(plugins, discovered);
      |plugins| <= |r| && r[..|plugins|] == plugins && Keys(r) == Keys(plugins) + NewNames(plugins, discovered)
  {
    var n := |discovered|;
    if n == 0 {
      assert plugins[..|plugins|] == plugins;
    } else {
      var init := discovered[..n - 1];
      AddNewPrefix(plugins, init);
      var acc := AddNew(plugins, init);
      var (name, t) := discovered[n - 1];
      if !HasKey(acc, name) {
        KeysSnoc(acc, (name, NewEntry(t)));
        assert (acc + [(name, NewEntry(t))])[..|plugins|] == acc[..|plugins|];
      }
    }
  }

  /** After adding, the names with an entry are the old ones and the discovered ones. */
  lemma {:induction false} AddNewHasKey(plugins: OMap<string, Entry>, discovered: OMap<string, PluginType>, k: string)
    ensures HasKey(AddNew(plugins, discovered), k) <==> HasKey(plugins, k) || HasKey(discovered, k)
  {
    var n := |discovered|;
    if n > 0 {
      var init := discovered[..n - 1];
      AddNewHasKey(plugins, init, k);
      PrefixHasKey(discovered, n - 1, k);
      assert discovered[..n] == discovered;
      var acc := AddNew(plugins, init);
      var (name, t) := discovered[n - 1];
      if !HasKey(acc, name) {
        KeysSnoc(acc, (name, NewEntry(t)));
      }
    }
  }

  /** Adding keeps each name once. */
  lemma {:induction false} AddNewValid(plugins: OMap<string, Entry>, discovered: OMap<string, PluginType>)
    requires Valid(plugins)
    ensures Valid(AddNew(plugins, discovered))
  {
    var n := |discovered|;
    if n > 0 {
      var init := discovered[..n - 1];
      AddNewValid(plugins, init);
      var acc := AddNew(plugins, init);
      var (name, t) := discovered[n - 1];
      if !HasKey(acc, name) {
        KeysSnoc(acc, (name, NewEntry(t)));
        ValidByKeys(acc, acc + [(name, NewEntry(t))], name);
      }
    }
  }

  /** An existing entry is never overwritten. */
  lemma {:induction false} AddNewKeeps(plugins: OMap<string, Entry>, discovered: OMap<string, PluginType>, k: string)
    requires HasKey(plugins, k)
    ensures Get(AddNew(plugins, discovered), k) == Get(plugins, k)
  {
    var n := |discovered|;
    if n > 0 {
      var init := discovered[..n - 1];
      AddNewKeeps(plugins, init, k);
      AddNewHasKey(plugins, init, k);
      var acc := AddNew(plugins, init);
      var (name, t) := discovered[n - 1];
      if !HasKey(acc, name) {
        GetAppend(acc, name, NewEntry(t), k);
      }
    }
  }

  /** A discovered name without an entry gets the new entry of its discovered type. */
  lemma {:induction false} AddNewEntryOf(plugins: OMap<string, Entry>, discovered: OMap<string, PluginType>, k: string)
    requires Valid(discovered) && !HasKey(plugins, k) && HasKey(discovered, k)
    ensures Get(AddNew(plugins, discovered), k) == Some(NewEntry(Get(discovered, k).value))
  {
    var n := |discovered|;
    var init := discovered[..n - 1];
    var acc := AddNew(plugins, init);
    var (name, t) := discovered[n - 1];
    PrefixHasKey(discovered, n - 1, k);
    assert discovered[..n] == discovered;
    AddNewHasKey(plugins, init, k);
    AddNewHasKey(plugins, init, name);
    if k == name {
      LastKeyFresh(discovered);
      assert Get(discovered, k) == Some(t);
      GetNew(acc, k, NewEntry(t));
    } else {
      assert Valid(init);
      AddNewEntryOf(plugins, init, k);
      var j := IndexOf(init, k);
      assert discovered[j] == init[j];
      assert Get(discovered, k) == Get(init, k);
      if !HasKey(acc, name) {
        GetAppend(acc, name, NewEntry(t), k);
      }
    }
  }

  /** A name is reported new exactly when it was discovered and had no entry. */
  lemma {:induction false} NewNamesMembers(plugins: OMap<string, Entry>, discovered: OMap<string, PluginType>, k: string)
    ensures k in NewNames(plugins, discovered) <==> !HasKey(plugins, k) && HasKey(discovered, k)
  {
    AddNewPrefix(plugins, discovered);
    AddNewHasKey(plugins, discovered, k);
    var r := AddNew(plugins, discovered);
    var added := NewNames(plugins, discovered);
    if k in added {
      var j :| 0 <= j < |added| && added[j] == k;
      assert Keys(r)[|plugins| + j] == k;
      if HasKey(plugins, k) {
        NewNamesFresh(plugins, discovered, k);
      }
    }
  }

  lemma {:induction false} NewNamesFresh(plugins: OMap<string, Entry>, discovered: OMap<string, PluginType>, k: string)
    requires HasKey(plugins, k)
    ensures k !in NewNames(plugins, discovered)
  {
    var n := |discovered|;
    if n > 0 {
      var init := discovered[..n - 1];
      NewNamesFresh(plugins, init, k);
      AddNewHasKey(plugins, init, k);
    }
  }

  /** Nothing to add when every discovered name already has an entry. */
  lemma {:induction false} AddNewNothing(plugins: OMap<string, Entry>, discovered: OMap<string, PluginType>)
    requires forall k :: HasKey(discovered, k) ==> HasKey(plugins, k)
    ensures AddNew(plugins, discovered) == plugins && NewNames(plugins, discovered) == []
  {
    var n := |discovered|;
    if n > 0 {
      var init := discovered[..n - 1];
      forall k | HasKey(init, k) ensures HasKey(plugins, k) {
        PrefixHasKey(discovered, n - 1, k);
        assert discovered[..n] == discovered;
      }
      AddNewNothing(plugins, init);
      KeyAt(discovered, n - 1);
    }
  }

  /** A name is reported missing exactly when it has an entry and was not discovered. */
  lemma {:induction false} MissingNamesMembers(plugins: OMap<string, Entry>, discovered: OMap<string, PluginType>, name: string)
    ensures name in MissingNames(plugins, discovered) <==> HasKey(plugins, name) && !HasKey(discovered, name)
  {
    var n := |plugins|;
    if n > 0 {
      MissingNamesMembers(plugins[..n - 1], discovered, name);
      PrefixHasKey(plugins, n - 1, name);
      assert plugins[..n] == plugins;
    }
  }

  /** Flagging then clearing leaves each entry flagged exactly when it was not discovered. */
  lemma MarkThenClear(plugins: OMap<string, Entry>, discovered: OMap<string, PluginType>)
    ensures ClearFound(MarkMissing(plugins, discovered), discovered) == Flagged(plugins, discovered)
  {
    var r := ClearFound(MarkMissing(plugins, discovered), discovered);
    forall i | 0 <= i < |plugins| ensures r[i] == Flagged(plugins, discovered)[i] {
      assert MarkMissing(plugins, discovered)[i].0 == plugins[i].0;
    }
  }

  /** Flagging keeps the names, so each still occurs once, and updates only `_missing`. */
  lemma FlaggedGet(plugins: OMap<string, Entry>, discovered: OMap<string, PluginType>, k: string)
    requires Valid(plugins)
    ensures Keys(Flagged(plugins, discovered)) == Keys(plugins)
    ensures Valid(Flagged(plugins, discovered))
    ensures Get(Flagged(plugins, discovered), k) ==
            if HasKey(plugins, k) then Some(Get(plugins, k).value.(missing := !HasKey(discovered, k))) else None
  {
    var r := Flagged(plugins, discovered);
    assert Keys(r) == Keys(plugins);
    assert Valid(r) by {
      forall a, b | 0 <= a < b < |r| ensures r[a].0 != r[b].0 { assert r[a].0 == plugins[a].0 && r[b].0 == plugins[b].0; }
    }
    if HasKey(plugins, k) {
      var i := IndexOf(plugins, k);
      assert r[i].0 == k;
    }
  }

  function EntryOf(config: Config, name: string): Option<Entry> {
    Get(config.plugins, name)
  }

  /** Every saved entry is flagged `_missing` exactly when the discovery did not find it. */
  lemma SyncFlagsMissing(config: Config, discovered: OMap<string, PluginType>)
    ensures var saved := Sync(config, discovered).config.plugins;
      forall i :: 0 <= i < |saved| ==> saved[i].1.missing == !HasKey(discovered, saved[i].0)
  {
    var added := if OrTrue(config.autoDiscover) then AddNew(config.plugins, discovered) else config.plugins;
    MarkThenClear(added, discovered);
  }

  /**
   * No entry is dropped: the saved names are the old ones plus, with
   * auto-discovery on, the discovered ones.
   */
  lemma SyncKeys(config: Config, discovered: OMap<string, PluginType>, k: string)
    ensures HasKey(Sync(config, discovered).config.plugins, k) <==>
            HasKey(config.plugins, k) || (OrTrue(config.autoDiscover) && HasKey(discovered, k))
  {
    var added := if OrTrue(config.autoDiscover) then AddNew(config.plugins, discovered) else config.plugins;
    MarkThenClear(added, discovered);
    AddNewHasKey(config.plugins, discovered, k);
    assert Keys(Flagged(added, discovered)) == Keys(added);
  }

  /**
   * Reconciliation never drops or rewrites an entry: an existing entry
   * keeps every field but `_missing`, which is set exactly when the
   * discovery did not find the plugin.
   */
  lemma SyncKeepsEntries(config: Config, discovered: OMap<string, PluginType>, name: string)
    requires Valid(config.plugins)
    requires HasKey(config.plugins, name)
    ensures EntryOf(Sync(config, discovered).config, name)
            == Some(EntryOf(config, name).value.(missing := !HasKey(discovered, name)))
  {
    var added := if OrTrue(config.autoDiscover) then AddNew(config.plugins, discovered) else config.plugins;
    AddNewValid(config.plugins, discovered);
    AddNewKeeps(config.plugins, discovered, name);
    AddNewHasKey(config.plugins, discovered, name);
    MarkThenClear(added, discovered);
    FlaggedGet(added, discovered, name);
  }

  /**
   * With auto-discovery on, a discovered plugin without an entry gets the
   * new entry of its type, enabled and not missing, and is reported new;
   * otherwise it gets no entry and is not reported.
   */
  lemma SyncAddsNew(config: Config, discovered: OMap<string, PluginType>, name: string)
    requires Valid(config.plugins) && Valid(discovered)
    requires !HasKey(config.plugins, name)
    ensures var r := Sync(config, discovered);
      (OrTrue(config.autoDiscover) && HasKey(discovered, name) ==>
         EntryOf(r.config, name) == Some(NewEntry(Get(discovered, name).value)) && name in r.newPlugins)
      && (!(OrTrue(config.autoDiscover) && HasKey(discovered, name)) ==>
         !HasKey(r.config.plugins, name) && name !in r.newPlugins)
  {
    var added := if OrTrue(config.autoDiscover) then AddNew(config.plugins, discovered) else config.plugins;
    AddNewValid(config.plugins, discovered);
    AddNewHasKey(config.plugins, discovered, name);
    NewNamesMembers(config.plugins, discovered, name);
    MarkThenClear(added, discovered);
    FlaggedGet(added, discovered, name);
    if OrTrue(config.autoDiscover) && HasKey(discovered, name) {
      AddNewEntryOf(config.plugins, discovered, name);
    }
  }

  /** Reconciliation changes no plugin's enabled status. */
  lemma SyncPreservesEnabled(config: Config, discovered: OMap<string, PluginType>, name: string)
    requires Valid(config.plugins) && Valid(discovered)
    ensures IsPluginEnabled(name, Sync(config, discovered).config) == IsPluginEnabled(name, config)
  {
    if HasKey(config.plugins, name) {
      SyncKeepsEntries(config, discovered, name);
    } else {
      SyncAddsNew(config, discovered, name);
    }
  }

  /** The missing list names exactly the entries the discovery did not find. */
  lemma SyncReportsMissing(config: Config, discovered: OMap<string, PluginType>, name: string)
    ensures name in Sync(config, discovered).missingPlugins <==> HasKey(config.plugins, name) && !HasKey(discovered, name)
  {
    var added := if OrTrue(config.autoDiscover) then AddNew(config.plugins, discovered) else config.plugins;
    AddNewHasKey(config.plugins, discovered, name);
    MissingNamesMembers(added, discovered, name);
  }

  /** A second reconciliation against the same discovery adds nothing and saves the same configuration. */
  lemma SyncIsIdempotent(config: Config, discovered: OMap<string, PluginType>)
    ensures var once := Sync(config, discovered);
      var twice := Sync(once.config, discovered);
      twice.config == once.config && twice.newPlugins == []
  {
    var added := if OrTrue(config.autoDiscover) then AddNew(config.plugins, discovered) else config.plugins;
    var once := Sync(config, discovered);
    var f := Flagged(added, discovered);
    MarkThenClear(added, discovered);
    assert Keys(f) == Keys(added);
    if OrTrue(config.autoDiscover) {
      forall k | HasKey(discovered, k) ensures HasKey(f, k) {
        AddNewHasKey(config.plugins, discovered, k);
      }
      AddNewNothing(f, discovered);
    }
    MarkThenClear(f, discovered);
    assert Flagged(f, discovered) == f;
  }

  // ---------------------------------------------------------------------
  // Enabled plugins by type

  function EnabledOfType(discovered: OMap<string, PluginType>, t: PluginType, config: Config): seq<string> {
    EnabledWith(discovered, t, EnabledIn(config))
  }

  /** `is_plugin_enabled` against a fixed configuration. */
  function EnabledIn(config: Config): string -> bool {
    name => IsPluginEnabled(name, config)
  }

  /** The discovered plugins of type `t` that `enabled` accepts, in discovery order. */
  function EnabledWith(discovered: OMap<string, PluginType>, t: PluginType, enabled: string -> bool): seq<string> {
    if |discovered| == 0 then []
    else
      var (name, dt) := discovered[|discovered| - 1];
      EnabledWith(discovered[..|discovered| - 1], t, enabled)
      + (if dt == t && enabled(name) then [name] else [])
  }

  /** `get_enabled_plugins_by_type`: the discovered plugins of type `t` that are enabled, in discovery order. */
  method GetEnabledPluginsByType(t: PluginType, config: Config, discovered: OMap<string, PluginType>)
    returns (enabled: seq<string>)
    ensures enabled == EnabledOfType(discovered, t, config)
  {
    enabled := [];
    ghost var isOn := EnabledIn(config);
    var i := 0;
    while i < |discovered|
      invariant 0 <= i <= |discovered|
      invariant enabled == EnabledWith(discovered[..i], t, isOn)
    {
      assert discovered[..i + 1][..i] == discovered[..i];
      var (name, dt) := discovered[i];
      assert isOn(name) == IsPluginEnabled(name, config);
      if dt == t && IsPluginEnabled(name, config) {
        enabled := enabled + [name];
      }
      i := i + 1;
    }
    assert discovered[..|discovered|] == discovered;
  }

  /** A name is listed exactly when it was discovered with type `t` and is enabled. */
  lemma EnabledOfTypeMembers(discovered: OMap<string, PluginType>, t: PluginType, config: Config, name: string)
    requires Valid(discovered)
    ensures name in EnabledOfType(discovered, t, config) <==>
            Get(discovered, name) == Some(t) && IsPluginEnabled(name, config)
  {
    EnabledWithMembers(discovered, t, EnabledIn(config), name);
  }

  lemma {:induction false} EnabledWithMembers(discovered: OMap<string, PluginType>, t: PluginType, enabled: string -> bool, name: string)
    requires Valid(discovered)
    ensures name in EnabledWith(discovered, t, enabled) <==> Get(discovered, name) == Some(t) && enabled(name)
  {
    var n := |discovered|;
    if n > 0 {
      var init := discovered[..n - 1];
      var last := discovered[n - 1];
      assert discovered == init + [last];
      ValidSnoc(init, last);
      EnabledWithMembers(init, t, enabled, name);
      GetSnoc(init, last, name);
    }
  }

  /**
   * The single type per file decides the phase: a file marked both
   * [ACTION] and [EXTENSION] is an ACTION plugin and never listed as an
   * EXTENSION one.
   */
  lemma ActionAndExtensionIsAction(files: seq<PluginFile>, config: Config, i: nat)
    requires forall a, b :: 0 <= a < b < |files| ==> files[a].name != files[b].name
    requires i < |files| && files[i].name != InitFile && files[i].content.Some?
    requires Contains(files[i].content.value, ActionMarker) && Contains(files[i].content.value, ExtensionMarker)
    ensures files[i].name !in EnabledOfType(DiscoverAll(files), ExtensionPlugin, config)
    ensures files[i].name in EnabledOfType(DiscoverAll(files), ActionPlugin, config) <==> IsPluginEnabled(files[i].name, config)
  {
    var name := files[i].name;
    DiscoverAllMembers(files, name);
    EnabledOfTypeMembers(DiscoverAll(files), ExtensionPlugin, config, name);
    EnabledOfTypeMembers(DiscoverAll(files), ActionPlugin, config, name);
    var j :| 0 <= j < |files| && files[j].name == name && Get(DiscoverAll(files), name) == DetectPluginType(files[j].content);
    assert j == i;
  }

  /**
   * Every plugin the manager lists as an enabled ACTION (EXTENSION)
   * plugin is also on the translator's own ACTION (EXTENSION) list for the
   * same directory.
   */
  lemma EnabledAreMarked(files: seq<PluginFile>, config: Config, name: string)
    ensures name in EnabledOfType(DiscoverAll(files), ActionPlugin, config) ==> name in MarkedNames(files, ActionMarker)
    ensures name in EnabledOfType(DiscoverAll(files), ExtensionPlugin, config) ==> name in MarkedNames(files, ExtensionMarker)
  {
    DiscoverAllMembers(files, name);
    MarkedNamesMembers(files, ActionMarker, name);
    MarkedNamesMembers(files, ExtensionMarker, name);
    EnabledOfTypeMembers(DiscoverAll(files), ActionPlugin, config, name);
    EnabledOfTypeMembers(DiscoverAll(files), ExtensionPlugin, config, name);
    if HasKey(DiscoverAll(files), name) {
      var j :| 0 <= j < |files| && files[j].name == name && Get(DiscoverAll(files), name) == DetectPluginType(files[j].content);
      assert name != InitFile by {
        var k :| 0 <= k < |files| && files[k].name == name && name != InitFile && DetectPluginType(files[k].content).Some?;
      }
    }
  }
}
