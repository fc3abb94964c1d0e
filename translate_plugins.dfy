/**
 * The translator's own plugin handling (`discover_plugins`,
 * `load_prompt_plugins`, `run_plugins`). A plugin file is listed under every
 * marker its text contains; it is not consulted against the plugin
 * configuration. Loading a plugin module and calling its entry points are
 * oracles: `modules[name]` says which entry points the loaded module
 * defines and what each call does; a name without an entry fails to load.
 */
module TranslatePlugins {
  import opened Wrappers
  import opened Text

  const PromptMarker := "[PROMPT]"
  const ActionMarker := "[ACTION]"
  const ExtensionMarker := "[EXTENSION]"
  const InitFile := "__init__.py"

  /** A `*.py` file of the plugin directory; `content` is `None` when reading it fails. */
  datatype PluginFile = PluginFile(name: string, content: Option<string>)

  /** The three name lists `discover_plugins` returns. */
  datatype Catalog = Catalog(prompt: seq<string>, action: seq<string>, extension: seq<string>)

  /** What calling one entry point does. */
  datatype Call = ReturnsTrue | ReturnsOther | Raises

  /** The entry points a loaded plugin module defines (`None`: no such attribute). */
  datatype PluginModule = PluginModule(run: Option<Call>, filterTranslations: Option<Call>, main: Option<Call>)

  /** Loading behaviour of the plugin directory: names absent here raise while loading. */
  type Modules = map<string, PluginModule>

  datatype Kind = Action | Extension

  /** The file is read successfully and its text contains `marker`. */
  predicate Marked(f: PluginFile, marker: string) {
    f.name != InitFile && f.content.Some? && Contains(f.content.value, marker)
  }

  /** Names of the files carrying `marker`, in directory order. */
  function MarkedNames(files: seq<PluginFile>, marker: string): (r: seq<string>)
    ensures |r| <= |files|
  {
    if |files| == 0 then []
    else
      var init := MarkedNames(files[..|files| - 1], marker);
      var f := files[|files| - 1];
      if Marked(f, marker) then init + [f.name] else init
  }

  /** A name is listed exactly when a file of that name is readable and carries the marker. */
  lemma {:induction false} MarkedNamesMembers(files: seq<PluginFile>, marker: string, name: string)
    ensures name in MarkedNames(files, marker) <==>
            exists i :: 0 <= i < |files| && files[i].name == name && Marked(files[i], marker)
  {
    if |files| > 0 {
      var init := files[..|files| - 1];
      MarkedNamesMembers(init, marker, name);
      if name in MarkedNames(init, marker) {
        var i :| 0 <= i < |init| && init[i].name == name && Marked(init[i], marker);
        assert files[i] == init[i];
      }
      if exists i :: 0 <= i < |files| && files[i].name == name && Marked(files[i], marker) {
        var i :| 0 <= i < |files| && files[i].name == name && Marked(files[i], marker);
        if i < |init| { assert init[i] == files[i]; }
      }
    }
  }

  /**
   * `discover_plugins`: a missing directory gives three empty lists;
   * `__init__.py` and unreadable files are skipped; a file goes on every
   * list whose marker it contains.
   */
  method DiscoverPlugins(dir: Option<seq<PluginFile>>) returns (c: Catalog)
    ensures c == Discover(dir)
  {
    if dir.None? {
      return Catalog([], [], []);
    }
    var files := dir.value;
    var prompt, action, extension := [], [], [];
    var i := 0;
    while i < |files|
      invariant 0 <= i <= |files|
      invariant prompt == MarkedNames(files[..i], PromptMarker)
      invariant action == MarkedNames(files[..i], ActionMarker)
      invariant extension == MarkedNames(files[..i], ExtensionMarker)
    {
      var f := files[i];
      assert files[..i + 1][..i] == files[..i];
      if f.name != InitFile && f.content.Some? {
        var text := f.content.value;
        if Contains(text, PromptMarker) { prompt := prompt + [f.name]; }
        if Contains(text, ActionMarker) { action := action + [f.name]; }
        if Contains(text, ExtensionMarker) { extension := extension + [f.name]; }
      }
      i := i + 1;
    }
    assert files[..|files|] == files;
    c := Catalog(prompt, action, extension);
  }

  /** The catalog of a plugin directory (`None`: the directory does not exist). */
  function Discover(dir: Option<seq<PluginFile>>): Catalog {
    match dir
    case None => Catalog([], [], [])
    case Some(files) => Catalog(MarkedNames(files, PromptMarker), MarkedNames(files, ActionMarker),
                                MarkedNames(files, ExtensionMarker))
  }

  /** `(PLUGINS_DIR / name).read_text()`: the first file of that name, if it is readable. */
  function ReadPlugin(dir: Option<seq<PluginFile>>, name: string): Option<string> {
    match dir
    case None => None
    case Some(files) => ReadIn(files, name)
  }

  function ReadIn(files: seq<PluginFile>, name: string): Option<string> {
    if |files| == 0 then None
    else if files[0].name == name then files[0].content
    else ReadIn(files[1..], name)
  }

  /** The texts of the readable PROMPT plugins, in the order given. */
  function PromptTexts(dir: Option<seq<PluginFile>>, names: seq<string>): (r: seq<string>)
    ensures |r| <= |names|
  {
    if |names| == 0 then []
    else
      var init := PromptTexts(dir, names[..|names| - 1]);
      match ReadPlugin(dir, names[|names| - 1])
      case Some(t) => init + [t]
      case None => init
  }

  /** `load_prompt_plugins`: the readable texts joined by single spaces; unreadable ones are left out. */
  method LoadPromptPlugins(dir: Option<seq<PluginFile>>, names: seq<string>) returns (addons: string)
    ensures addons == Join(PromptTexts(dir, names), " ")
  {
    var texts := [];
    var i := 0;
    while i < |names|
      invariant 0 <= i <= |names|
      invariant texts == PromptTexts(dir, names[..i])
    {
      assert names[..i + 1][..i] == names[..i];
      match ReadPlugin(dir, names[i]) {
        case Some(t) => texts := texts + [t];
        case None =>
      }
      i := i + 1;
    }
    assert names[..|names|] == names;
    addons := Join(texts, " ");
  }

  /** Every discovered PROMPT plugin is readable, so its text reaches the prompt. */
  lemma {:induction false} DiscoveredPromptsAreRead(files: seq<PluginFile>, names: seq<string>)
    requires forall i, j :: 0 <= i < j < |files| ==> files[i].name != files[j].name
    requires forall k :: 0 <= k < |names| ==> names[k] in MarkedNames(files, PromptMarker)
    ensures |PromptTexts(Some(files), names)| == |names|
  {
    if |names| > 0 {
      var init := names[..|names| - 1];
      var last := names[|names| - 1];
      DiscoveredPromptsAreRead(files, init);
      MarkedNamesMembers(files, PromptMarker, last);
      var i :| 0 <= i < |files| && files[i].name == last && Marked(files[i], PromptMarker);
      ReadInFinds(files, i);
    }
  }

  lemma {:induction false} ReadInFinds(files: seq<PluginFile>, i: nat)
    requires i < |files|
    requires forall a, b :: 0 <= a < b < |files| ==> files[a].name != files[b].name
    ensures ReadIn(files, files[i].name) == files[i].content
  {
    if i > 0 {
      assert files[0].name != files[i].name;
      ReadInFinds(files[1..], i - 1);
    }
  }

  /** Does the plugin get called in this phase? It must load and define the phase's entry point. */
  predicate Invoked(modules: Modules, name: string, kind: Kind) {
    name in modules &&
    match kind
    case Action => modules[name].run.Some?
    case Extension => modules[name].filterTranslations.Some?
  }

  /** An ACTION plugin's `run()` returned exactly `True`. */
  predicate Bypasses(modules: Modules, name: string) {
    name in modules && modules[name].run == Some(ReturnsTrue)
  }

  datatype PhaseRun = PhaseRun(bypass: bool, invoked: seq<string>)

  /** The plugins `run_plugins` calls, in order, and whether one signalled the bypass. */
  function RunPhase(names: seq<string>, kind: Kind, modules: Modules): PhaseRun {
    if |names| == 0 then PhaseRun(false, [])
    else
      var name := names[0];
      var rest := RunPhase(names[1..], kind, modules);
      if !Invoked(modules, name, kind) then rest
      else if kind == Action && Bypasses(modules, name) then PhaseRun(true, [name])
      else PhaseRun(rest.bypass, [name] + rest.invoked)
  }

  /**
   * `run_plugins`: plugins run in order, each failure is reported and the
   * next plugin runs; an ACTION plugin whose `run()` returns `True` stops the
   * phase with the bypass signal.
   */
  method RunPlugins(names: seq<string>, kind: Kind, modules: Modules) returns (bypass: bool, invoked: seq<string>)
    ensures PhaseRun(bypass, invoked) == RunPhase(names, kind, modules)
  {
    invoked := [];
    var i := 0;
    while i < |names|
      invariant 0 <= i <= |names|
      invariant RunPhase(names, kind, modules) == Prefixed(invoked, RunPhase(names[i..], kind, modules))
    {
      var name := names[i];
      assert names[i..][1..] == names[i + 1..];
      if name in modules {
        var m := modules[name];
        if kind == Action && m.run.Some? {
          invoked := invoked + [name];
          if m.run.value == ReturnsTrue {
            return true, invoked;
          }
        } else if kind == Extension && m.filterTranslations.Some? {
          invoked := invoked + [name];
        }
      }
      i := i + 1;
    }
    return false, invoked;
  }

  function Prefixed(done: seq<string>, r: PhaseRun): PhaseRun {
    PhaseRun(r.bypass, done + r.invoked)
  }

  /** The plugins called are the loadable ones that define the entry point, in the given order. */
  function Callable(names: seq<string>, kind: Kind, modules: Modules): seq<string> {
    if |names| == 0 then []
    else (if Invoked(modules, names[0], kind) then [names[0]] else []) + Callable(names[1..], kind, modules)
  }

  /** The EXTENSION phase never signals a bypass and calls every plugin that defines `filter_translations`. */
  lemma {:induction false} ExtensionPhaseRunsAll(names: seq<string>, modules: Modules)
    ensures RunPhase(names, Extension, modules) == PhaseRun(false, Callable(names, Extension, modules))
  {
    if |names| > 0 { ExtensionPhaseRunsAll(names[1..], modules); }
  }

  /**
   * The ACTION phase signals a bypass exactly when some plugin's `run()`
   * returns `True`; it then stops at the first such plugin `names[k]`,
   * having called the callable plugins before it and none after.
   */
  lemma {:induction false} ActionBypassStopsAtFirst(names: seq<string>, modules: Modules, k: nat)
    requires k < |names| && Bypasses(modules, names[k])
    requires forall j :: 0 <= j < k ==> !Bypasses(modules, names[j])
    ensures RunPhase(names, Action, modules) == PhaseRun(true, Callable(names[..k + 1], Action, modules))
  {
    if k > 0 {
      ActionBypassStopsAtFirst(names[1..], modules, k - 1);
      assert names[1..][..k] == names[..k + 1][1..];
    } else {
      assert names[..1][1..] == [];
    }
  }

  /** Without a `True` from any `run()`, the ACTION phase calls every callable plugin and does not bypass. */
  lemma {:induction false} ActionWithoutBypass(names: seq<string>, modules: Modules)
    requires forall j :: 0 <= j < |names| ==> !Bypasses(modules, names[j])
    ensures RunPhase(names, Action, modules) == PhaseRun(false, Callable(names, Action, modules))
  {
    if |names| > 0 { ActionWithoutBypass(names[1..], modules); }
  }
}
