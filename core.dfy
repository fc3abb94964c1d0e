/**
 * The orchestrator (`core.py`): the yes/no prompt, the EXTENSION plugin
 * runner used when translation is skipped, and `run_tool`, which
 * reconciles the plugin configuration and then runs the pipeline stages in
 * a fixed order, deciding at step 7 between the translator and the
 * EXTENSION plugins. The stages themselves are modelled in their own
 * modules; here each one is a name that either completes or raises, and a
 * raise ends the run (the `except` clauses of `run_tool`). The user's
 * answers are a sequence; running out of answers is the end of input.
 */
module Core {
  import opened Wrappers
  import opened Text
  import opened OrderedMaps
  import opened TranslatePlugins
  import opened PluginManager

  // ---------------------------------------------------------------------
  // ask_user_yes_no

  /** How one typed answer is read once stripped and lower-cased: yes, no, or ask again. */
  function Answer(response: string): Option<bool> {
    var r := Lower(Strip(response));
    if r == "y" || r == "yes" || r == "s" || r == "si" then Some(true)
    else if r == "n" || r == "no" then Some(false)
    else None
  }

  /** The decision and the number of answers read; `None` when the input ends first. */
  datatype Asked = Asked(decision: Option<bool>, read: nat)

  /** Prompting until `classify` recognises an answer. */
  function AskWith(answers: seq<string>, classify: string -> Option<bool>): Asked {
    if |answers| == 0 then Asked(None, 0)
    else
      match classify(answers[0])
      case Some(b) => Asked(Some(b), 1)
      case None => var rest := AskWith(answers[1..], classify); Asked(rest.decision, rest.read + 1)
  }

  function Ask(answers: seq<string>): Asked {
    AskWith(answers, Answer)
  }

  /** `ask_user_yes_no`: prompt until an answer is recognised. */
  method AskUserYesNo(answers: seq<string>) returns (decision: Option<bool>, read: nat)
    ensures Asked(decision, read) == Ask(answers)
  {
    var i := 0;
    while i < |answers|
      invariant 0 <= i <= |answers|
      invariant Ask(answers) == ReadAfter(i, AskWith(answers[i..], Answer))
    {
      assert answers[i..][1..] == answers[i + 1..];
      var response := Answer(answers[i]);
      if response.Some? {
        return response, i + 1;
      }
      i := i + 1;
    }
    return None, i;
  }

  function ReadAfter(n: nat, a: Asked): Asked {
    Asked(a.decision, n + a.read)
  }

  /** The first recognised answer decides, after every unrecognised one before it was read. */
  lemma {:induction false} AskStopsAtFirstRecognised(answers: seq<string>, classify: string -> Option<bool>, k: nat)
    requires k < |answers| && classify(answers[k]).Some?
    requires forall j :: 0 <= j < k ==> classify(answers[j]).None?
    ensures AskWith(answers, classify) == Asked(classify(answers[k]), k + 1)
  {
    if k > 0 {
      AskStopsAtFirstRecognised(answers[1..], classify, k - 1);
    }
  }

  /** Without a recognised answer every answer is read and the input runs out. */
  lemma {:induction false} AskExhausted(answers: seq<string>, classify: string -> Option<bool>)
    requires forall j :: 0 <= j < |answers| ==> classify(answers[j]).None?
    ensures AskWith(answers, classify) == Asked(None, |answers|)
  {
    if |answers| > 0 {
      AskExhausted(answers[1..], classify);
    }
  }

  /** Whatever is typed: a decision is the last answer read, and the answers before it were not recognised. */
  lemma {:induction false} AskBounds(answers: seq<string>, classify: string -> Option<bool>)
    ensures var a := AskWith(answers, classify);
      a.read <= |answers|
      && (a.decision.Some? ==> a.read >= 1 && classify(answers[a.read - 1]) == a.decision)
      && (a.decision.None? ==> a.read == |answers|)
      && forall j :: 0 <= j < a.read - 1 ==> classify(answers[j]).None?
  {
    if |answers| > 0 && classify(answers[0]).None? {
      AskBounds(answers[1..], classify);
      var rest := AskWith(answers[1..], classify);
      forall j | 0 <= j < rest.read ensures answers[j + 1] == answers[1..][j] {
      }
    }
  }

  // ---------------------------------------------------------------------
  // run_extension_plugins

  /** What happens to one EXTENSION plugin; a raising call is reported and the next plugin runs. */
  datatype Handling = RanMain(result: Call) | RanFilter(result: Call) | NoEntryPoint | LoadFailed

  /** `main()` is preferred over `filter_translations()`; a module that fails to load is reported. */
  function Handle(modules: Modules, name: string): Handling {
    if name !in modules then LoadFailed
    else
      var m := modules[name];
      if m.main.Some? then RanMain(m.main.value)
      else if m.filterTranslations.Some? then RanFilter(m.filterTranslations.value)
      else NoEntryPoint
  }

  function ExtensionRun(names: seq<string>, modules: Modules): seq<(string, Handling)> {
    if |names| == 0 then []
    else ExtensionRun(names[..|names| - 1], modules) + [(names[|names| - 1], Handle(modules, names[|names| - 1]))]
  }

  /** `run_extension_plugins`: every plugin in order, each isolated from the others' failures. */
  method RunExtensionPlugins(names: seq<string>, modules: Modules) returns (log: seq<(string, Handling)>)
    ensures log == ExtensionRun(names, modules)
  {
    log := [];
    var i := 0;
    while i < |names|
      invariant 0 <= i <= |names|
      invariant log == ExtensionRun(names[..i], modules)
    {
      assert names[..i + 1][..i] == names[..i];
      var name := names[i];
      var handling: Handling;
      if name !in modules {
        handling := LoadFailed;
      } else if modules[name].main.Some? {
        handling := RanMain(modules[name].main.value);
      } else if modules[name].filterTranslations.Some? {
        handling := RanFilter(modules[name].filterTranslations.value);
      } else {
        handling := NoEntryPoint;
      }
      log := log + [(name, handling)];
      i := i + 1;
    }
    assert names[..|names|] == names;
  }

  /**
   * One record per plugin, in the given order, whatever the earlier ones
   * did: a plugin defining `main()` has it called even when it also
   * defines `filter_translations()`.
   */
  lemma {:induction false} ExtensionRunHandlesEach(names: seq<string>, modules: Modules)
    ensures |ExtensionRun(names, modules)| == |names|
    ensures forall i :: 0 <= i < |names| ==> ExtensionRun(names, modules)[i] == (names[i], Handle(modules, names[i]))
  {
    if |names| > 0 {
      var init := names[..|names| - 1];
      ExtensionRunHandlesEach(init, modules);
      forall i | 0 <= i < |init| ensures init[i] == names[i] { }
    }
  }

  // ---------------------------------------------------------------------
  // run_tool

  datatype Stage =
    | SyncPlugins | DownloadFiles | ScanIos | ScanAndroid | MergePlatforms | DownloadKeys
    | Normalize | Prepare | Translator | Extensions | Upload | Cleanup | OpenBrowser

  /** The stages before the translation decision, in order. */
  const Before: seq<Stage> := [SyncPlugins, DownloadFiles, ScanIos, ScanAndroid, MergePlatforms, DownloadKeys, Normalize, Prepare]
  const After: seq<Stage> := [Upload, Cleanup, OpenBrowser]

  /** The full pipeline when nothing raises: the translator, or the EXTENSION plugins instead of it. */
  function Pipeline(skip: bool): seq<Stage> {
    Before + [if skip then Extensions else Translator] + After
  }

  /**
   * A run of `run_tool`, or of its last part: the stages entered, the
   * answers read at the step-7 question, the EXTENSION plugins' records
   * when translation was skipped, and whether every stage completed.
   */
  datatype ToolRun = ToolRun(stages: seq<Stage>, read: nat, extensionRun: seq<(string, Handling)>, completed: bool)

  /** The stages of `stages` entered when those in `raises` raise: up to and including the first that does. */
  function Entered(stages: seq<Stage>, raises: set<Stage>): (r: seq<Stage>)
    ensures r <= stages
  {
    if |stages| == 0 then []
    else if stages[0] in raises then [stages[0]]
    else [stages[0]] + Entered(stages[1..], raises)
  }

  predicate AllPass(stages: seq<Stage>, raises: set<Stage>) {
    forall i :: 0 <= i < |stages| ==> stages[i] !in raises
  }

  /** The configuration after reconciliation, which is what step 7 reads back. */
  function Saved(cfg: ConfigFile, dir: Option<seq<PluginFile>>): Config {
    Sync(LoadPluginConfig(cfg), Discovered(dir)).config
  }

  function Discovered(dir: Option<seq<PluginFile>>): OMap<string, PluginType> {
    if dir.None? then [] else DiscoverAll(dir.value)
  }

  /** The step-7 decision, `Some(skip)` or `None` when the input ends during the question, and the answers read. */
  function Decide(actionPlugins: seq<string>, doneFileExists: bool, answers: seq<string>): Asked {
    if |actionPlugins| > 0 then Asked(Some(false), 0)
    else if doneFileExists then Ask(answers)
    else Asked(Some(false), 0)
  }

  /** Step 7 and the stages after it. */
  function FromStep7(config: Config, discovered: OMap<string, PluginType>, doneFileExists: bool, answers: seq<string>,
                     modules: Modules, raises: set<Stage>): ToolRun {
    var d := Decide(EnabledOfType(discovered, ActionPlugin, config), doneFileExists, answers);
    if d.decision.None? then ToolRun([], d.read, [], false)
    else if d.decision.value then
      ToolRun([Extensions] + Entered(After, raises), d.read,
              ExtensionRun(EnabledOfType(discovered, ExtensionPlugin, config), modules), AllPass(After, raises))
    else ToolRun(Entered([Translator] + After, raises), d.read, [], AllPass([Translator] + After, raises))
  }

  function RunToolSpec(cfg: ConfigFile, dir: Option<seq<PluginFile>>, doneFileExists: bool, answers: seq<string>,
                       modules: Modules, raises: set<Stage>): ToolRun {
    RunWith(Saved(cfg, dir), Discovered(dir), doneFileExists, answers, modules, raises)
  }

  /** The stages of `run_tool` once the plugins are reconciled into `config` and `discovered`. */
  function RunWith(config: Config, discovered: OMap<string, PluginType>, doneFileExists: bool, answers: seq<string>,
                   modules: Modules, raises: set<Stage>): ToolRun {
    if !AllPass(Before, raises) then ToolRun(Entered(Before, raises), 0, [], false)
    else
      var rest := FromStep7(config, discovered, doneFileExists, answers, modules, raises);
      rest.(stages := Before + rest.stages)
  }

  /** Enter the stages in order until one raises; `ok` is whether none did. */
  method EnterAll(log: seq<Stage>, stages: seq<Stage>, raises: set<Stage>) returns (log': seq<Stage>, ok: bool)
    ensures log' == log + Entered(stages, raises) && ok == AllPass(stages, raises)
  {
    log' := log;
    var rest := stages;
    while |rest| > 0
      invariant log + Entered(stages, raises) == log' + Entered(rest, raises)
      invariant AllPass(stages, raises) == AllPass(rest, raises)
    {
      log' := log' + [rest[0]];
      if rest[0] in raises {
        return log', false;
      }
      PassOn(rest, raises);
      rest := rest[1..];
    }
    ok := true;
  }

  /** A stage that does not raise is entered and the run goes on with the next one. */
  lemma PassOn(stages: seq<Stage>, raises: set<Stage>)
    requires |stages| > 0 && stages[0] !in raises
    ensures Entered(stages, raises) == [stages[0]] + Entered(stages[1..], raises)
    ensures AllPass(stages, raises) <==> AllPass(stages[1..], raises)
  {
    if AllPass(stages[1..], raises) {
      forall j | 0 <= j < |stages| ensures stages[j] !in raises {
        if j > 0 { assert stages[j] == stages[1..][j - 1]; }
      }
    }
  }

  /** Step 7 of `run_tool` and the stages after it. */
  method TranslateOrSkip(config: Config, discovered: OMap<string, PluginType>, doneFileExists: bool, answers: seq<string>,
                         modules: Modules, raises: set<Stage>) returns (run: ToolRun)
    ensures run == FromStep7(config, discovered, doneFileExists, answers, modules, raises)
  {
    var actionPlugins := GetEnabledPluginsByType(ActionPlugin, config, discovered);
    var skip := false;
    var read := 0;
    if |actionPlugins| > 0 {
      skip := false;
    } else if doneFileExists {
      var decision;
      decision, read := AskUserYesNo(answers);
      if decision.None? {
        return ToolRun([], read, [], false);
      }
      skip := decision.value;
    }
    var log, ok;
    if skip {
      var extensionPlugins := GetEnabledPluginsByType(ExtensionPlugin, config, discovered);
      var extensionRun := RunExtensionPlugins(extensionPlugins, modules);
      log, ok := EnterAll([Extensions], After, raises);
      return ToolRun(log, read, extensionRun, ok);
    }
    log, ok := EnterAll([], [Translator] + After, raises);
    return ToolRun(log, read, [], ok);
  }

  /**
   * `run_tool`: reconcile the plugin configuration, then run the stages.
   * The configuration file holds a JSON object, so a parsed file names
   * each plugin once.
   */
  method RunTool(cfg: ConfigFile, dir: Option<seq<PluginFile>>, doneFileExists: bool, answers: seq<string>,
                 modules: Modules, raises: set<Stage>) returns (run: ToolRun)
    requires cfg.Parsed? ==> Valid(cfg.config.plugins)
    ensures run == RunToolSpec(cfg, dir, doneFileExists, answers, modules, raises)
  {
    var loaded := LoadPluginConfig(cfg);
    var discovered := DiscoverAllPlugins(dir);
    var config, _, _ := SyncPluginConfig(loaded, discovered);
    assert config == Saved(cfg, dir);
    run := RunStages(config, discovered, doneFileExists, answers, modules, raises);
  }

  /** The stages of `run_tool` after the plugin reconciliation. */
  method RunStages(config: Config, discovered: OMap<string, PluginType>, doneFileExists: bool, answers: seq<string>,
                   modules: Modules, raises: set<Stage>) returns (run: ToolRun)
    ensures run == RunWith(config, discovered, doneFileExists, answers, modules, raises)
  {
    var log, ok := EnterAll([], Before, raises);
    if !ok {
      RunWithStops(config, discovered, doneFileExists, answers, modules, raises);
      return ToolRun(log, 0, [], false);
    }
    assert log == Entered(Before, raises);
    var rest := TranslateOrSkip(config, discovered, doneFileExists, answers, modules, raises);
    RunWithGoesOn(config, discovered, doneFileExists, answers, modules, raises, rest);
    return rest.(stages := log + rest.stages);
  }

  lemma RunWithStops(config: Config, discovered: OMap<string, PluginType>, doneFileExists: bool, answers: seq<string>,
                     modules: Modules, raises: set<Stage>)
    requires !AllPass(Before, raises)
    ensures RunWith(config, discovered, doneFileExists, answers, modules, raises) == ToolRun(Entered(Before, raises), 0, [], false)
  {
  }

  lemma RunWithGoesOn(config: Config, discovered: OMap<string, PluginType>, doneFileExists: bool, answers: seq<string>,
                      modules: Modules, raises: set<Stage>, rest: ToolRun)
    requires AllPass(Before, raises)
    requires rest == FromStep7(config, discovered, doneFileExists, answers, modules, raises)
    ensures RunWith(config, discovered, doneFileExists, answers, modules, raises) == rest.(stages := Entered(Before, raises) + rest.stages)
  {
    EnteredFacts(Before, raises);
  }

  // ---------------------------------------------------------------------
  // Properties of run_tool

  /** Every stage runs when none raises; otherwise the run stops at the first that does. */
  lemma {:induction false} EnteredFacts(stages: seq<Stage>, raises: set<Stage>)
    ensures AllPass(stages, raises) ==> Entered(stages, raises) == stages
    ensures !AllPass(stages, raises) ==> |Entered(stages, raises)| > 0
                                         && Entered(stages, raises)[|Entered(stages, raises)| - 1] in raises
    ensures |stages| > 0 ==> |Entered(stages, raises)| > 0 && Entered(stages, raises)[0] == stages[0]
  {
    if |stages| > 0 && stages[0] !in raises {
      EnteredFacts(stages[1..], raises);
      if AllPass(stages, raises) {
        assert AllPass(stages[1..], raises) by {
          forall i | 0 <= i < |stages| - 1 ensures stages[1..][i] !in raises { assert stages[1..][i] == stages[i + 1]; }
        }
      } else {
        var i :| 0 <= i < |stages| && stages[i] in raises;
        assert stages[1..][i - 1] in raises;
      }
    }
  }

  /**
   * Plugin reconciliation comes first, the stages entered follow the fixed
   * order, and a completed run entered every stage.
   */
  lemma RunFollowsPipeline(config: Config, discovered: OMap<string, PluginType>, doneFileExists: bool, answers: seq<string>,
                           modules: Modules, raises: set<Stage>)
    ensures var r := RunWith(config, discovered, doneFileExists, answers, modules, raises);
      |r.stages| >= 1 && r.stages[0] == SyncPlugins
      && (r.stages <= Pipeline(false) || r.stages <= Pipeline(true))
      && (r.completed ==> r.stages == Pipeline(false) || r.stages == Pipeline(true))
  {
    EnteredFacts(Before, raises);
    var r := RunWith(config, discovered, doneFileExists, answers, modules, raises);
    if AllPass(Before, raises) {
      var rest := FromStep7(config, discovered, doneFileExists, answers, modules, raises);
      assert r.stages == Before + rest.stages;
      Step7FollowsPipeline(config, discovered, doneFileExists, answers, modules, raises);
      if rest.stages <= [Translator] + After {
        PrefixAfter(Before, rest.stages, [Translator] + After);
      } else {
        PrefixAfter(Before, rest.stages, [Extensions] + After);
      }
    } else {
      PrefixAfter([], r.stages, Before);
      PrefixAfter(Before, [], [Translator] + After);
    }
  }

  lemma Step7FollowsPipeline(config: Config, discovered: OMap<string, PluginType>, doneFileExists: bool,
                             answers: seq<string>, modules: Modules, raises: set<Stage>)
    ensures var r := FromStep7(config, discovered, doneFileExists, answers, modules, raises);
      (r.stages <= [Translator] + After || r.stages <= [Extensions] + After)
      && (r.completed ==> r.stages == [Translator] + After || r.stages == [Extensions] + After)
  {
    EnteredFacts(After, raises);
    EnteredFacts([Translator] + After, raises);
    var r := FromStep7(config, discovered, doneFileExists, answers, modules, raises);
    if r.stages != [] && r.stages[0] == Extensions {
      PrefixAfter([Extensions], Entered(After, raises), After);
    }
  }

  lemma PrefixAfter(p: seq<Stage>, a: seq<Stage>, b: seq<Stage>)
    requires a <= b
    ensures p + a <= p + b
  {
    assert (p + b)[..|p + a|] == p + a;
  }

  /** A run enters the translator or the EXTENSION plugins, never both, and records plugins only when skipping. */
  lemma TranslatorOrExtensions(config: Config, discovered: OMap<string, PluginType>, doneFileExists: bool, answers: seq<string>,
                               modules: Modules, raises: set<Stage>)
    ensures var r := RunWith(config, discovered, doneFileExists, answers, modules, raises);
      !(Translator in r.stages && Extensions in r.stages)
      && (Extensions !in r.stages ==> r.extensionRun == [])
  {
    var r := RunWith(config, discovered, doneFileExists, answers, modules, raises);
    assert Translator !in Before && Extensions !in Before && Translator !in After && Extensions !in After;
    if AllPass(Before, raises) {
      var rest := FromStep7(config, discovered, doneFileExists, answers, modules, raises);
      assert r.stages == Before + rest.stages;
      assert Extensions !in [Translator] + After;
      assert Translator !in [Extensions] + After;
    }
  }

  /**
   * Enabled ACTION plugins force the translation step without asking: the
   * translator is entered (unless an earlier stage raised) and no answer
   * is read.
   */
  lemma ActionPluginsForceTranslation(config: Config, discovered: OMap<string, PluginType>, doneFileExists: bool,
                                      answers: seq<string>, modules: Modules, raises: set<Stage>)
    requires AllPass(Before, raises)
    requires |EnabledOfType(discovered, ActionPlugin, config)| > 0
    ensures var r := RunWith(config, discovered, doneFileExists, answers, modules, raises);
      r.read == 0 && r.stages[|Before|] == Translator && r.extensionRun == []
  {
    EnteredFacts([Translator] + After, raises);
  }

  /** Without ACTION plugins and without `translation_done.csv`, nobody is asked and the translator runs. */
  lemma NoDoneFileNoQuestion(config: Config, discovered: OMap<string, PluginType>, answers: seq<string>,
                             modules: Modules, raises: set<Stage>)
    requires AllPass(Before, raises)
    ensures var r := RunWith(config, discovered, false, answers, modules, raises);
      r.read == 0 && r.stages[|Before|] == Translator && r.extensionRun == []
  {
    EnteredFacts([Translator] + After, raises);
  }

  /**
   * Skipping (a recognised "yes" with `translation_done.csv` present and no
   * ACTION plugins) runs each enabled EXTENSION plugin once, in order,
   * instead of the translator.
   */
  lemma SkipRunsExtensions(config: Config, discovered: OMap<string, PluginType>, answers: seq<string>,
                           modules: Modules, raises: set<Stage>)
    requires AllPass(Before, raises)
    requires |EnabledOfType(discovered, ActionPlugin, config)| == 0
    requires Ask(answers).decision == Some(true)
    ensures var r := RunWith(config, discovered, true, answers, modules, raises);
      var ext := EnabledOfType(discovered, ExtensionPlugin, config);
      r.stages[|Before|] == Extensions && Translator !in r.stages
      && |r.extensionRun| == |ext|
      && forall i :: 0 <= i < |ext| ==> r.extensionRun[i] == (ext[i], Handle(modules, ext[i]))
  {
    var ext := EnabledOfType(discovered, ExtensionPlugin, config);
    ExtensionRunHandlesEach(ext, modules);
    var r := RunWith(config, discovered, true, answers, modules, raises);
    assert r.stages == Before + ([Extensions] + Entered(After, raises));
    assert Translator !in Before && Translator !in After;
  }

  /**
   * Reconciliation does not change who is enabled, so step 7 sees the
   * plugins the loaded configuration enables.
   */
  lemma {:induction false} SavedEnablesAsLoaded(discovered: OMap<string, PluginType>, t: PluginType, loaded: Config,
                                                all: OMap<string, PluginType>)
    requires Valid(loaded.plugins) && Valid(all)
    ensures EnabledOfType(discovered, t, Sync(loaded, all).config) == EnabledOfType(discovered, t, loaded)
  {
    if |discovered| > 0 {
      SavedEnablesAsLoaded(discovered[..|discovered| - 1], t, loaded, all);
      SyncPreservesEnabled(loaded, all, discovered[|discovered| - 1].0);
    }
  }
}
