# Lokalise Translation Manager, modelled in Dafny

The Lokalise Translation Manager keeps the iOS and Android string catalogues of an app in step with a Lokalise project. `run_tool` in `core.py` first reconciles the plugin configuration. It then runs a fixed chain of stages:

1. download the keys and translations from Lokalise;
2. scan the iOS and the Android export for missing translations;
3. merge the two reports;
4. join the missing keys with their key ids;
5. normalise the language codes to Lokalise's;
6. look up each needed translation id;
7. translate with OpenAI, unless an ACTION plugin or the user decides to skip, in which case the EXTENSION plugins run instead;
8. upload the results;
9. offer to delete keys that no scanner found in use.

Plugins are Python files in the plugin directory, classified by the markers `[ACTION]`, `[EXTENSION]` and `[PROMPT]`. The bundled `myPayments` EXTENSION plugin moves SoftPOS and URL rows out of the translator's output. Two in-memory test doubles stand in for the Lokalise and the OpenAI APIs.

This project gives each of those source files one Dafny module. An imperative source keeps its loops as methods. Each method is proved equal to a specification function, and the properties the code promises are proved as lemmas about those functions. The mocks are classes whose methods update their fields. A few helper modules let the rest share Python's own behaviour:

- `Wrappers` holds Option and Result.
- `Text` holds the `str` operations.
- `OrderedMaps` holds a dictionary that keeps insertion order.
- `Csv` holds rows as `csv.reader` returns them.

Everything outside the process is a parameter rather than an effect. The HTTP replies, the OpenAI client, the loaded plugin modules, the files read from disk and the answers typed at prompts are oracles or inputs. Waits are recorded as numbers instead of being slept.

The proof work is spread across a few kinds of result:

- the bounded retry with its exact back-off delays;
- the resume filter and its idempotence;
- the ACTION bypass, which is exclusive and ends at the first `True`;
- the "nothing else changes" properties of the configuration reconciliation and the mock updates;
- the `", "`, `","` and `"|"` join/split round trips between stages;
- the counters that always add up (merge summary, normalisation, upload).

## Model

| member | source | states |
|---|---|---|
| Core.AskUserYesNo | lokalise_translation_manager/core.py:116-151 | the decision and the number of answers read are those of the first answer that, stripped and lower-cased, is one of y, yes, s, si (yes) or n, no (no); none when the input ends first |
| Core.AskStopsAtFirstRecognised | lokalise_translation_manager/core.py:143-151 | after k unrecognised answers, a recognised (k+1)-th answer decides and exactly k+1 answers are read |
| Core.AskExhausted | lokalise_translation_manager/core.py:143-151 | when no answer is recognised every answer is read and no decision is made |
| Core.AskBounds | lokalise_translation_manager/core.py:143-151 | for any input: at most all answers are read, a decision is the classification of the last answer read, and every earlier answer was unrecognised |
| Core.RunExtensionPlugins | lokalise_translation_manager/core.py:260-336 | the log of the plugin loop is the reference run `ExtensionRun`: one record per plugin, in order |
| Core.ExtensionRunHandlesEach | lokalise_translation_manager/core.py:310-336 | one record per plugin in the given order whatever the earlier ones did; `main()` is preferred over `filter_translations()`, and a module that does not load is recorded as a failure |
| Core.Entered | lokalise_translation_manager/core.py:390-602 | the stages a run enters are a prefix of the stage list |
| Core.EnterAll | lokalise_translation_manager/core.py:390-602 | the stage loop enters the stages up to and including the first that raises, and reports whether none did |
| Core.EnteredFacts | lokalise_translation_manager/core.py:390-602 | when no stage raises every stage is entered; otherwise the last stage entered is one that raises; the first stage is always entered |
| Core.TranslateOrSkip | lokalise_translation_manager/core.py:488-590 | step 7 and the stages after it end as `FromStep7` defines: the translator, or the EXTENSION plugins when the user skips |
| Core.RunStages | lokalise_translation_manager/core.py:410-590 | the stages of a run equal the reference `RunWith` |
| Core.RunTool | lokalise_translation_manager/core.py:339-603 | `run_tool` reconciles the plugin configuration and then runs the stages exactly as `RunToolSpec` defines |
| Core.RunFollowsPipeline | lokalise_translation_manager/core.py:390-590 | plugin reconciliation comes first, the entered stages are a prefix of the fixed pipeline (with the translator or with the EXTENSION plugins), and a completed run entered the whole pipeline |
| Core.TranslatorOrExtensions | lokalise_translation_manager/core.py:528-559 | a run never enters both the translator and the EXTENSION plugins, and records plugin runs only when it skipped translation |
| Core.ActionPluginsForceTranslation | lokalise_translation_manager/core.py:491-503 | with an enabled ACTION plugin the translator is entered without reading an answer |
| Core.NoDoneFileNoQuestion | lokalise_translation_manager/core.py:505-559 | without ACTION plugins and without `translation_done.csv` nobody is asked and the translator is entered |
| Core.SkipRunsExtensions | lokalise_translation_manager/core.py:505-550 | a "yes" with `translation_done.csv` present runs each enabled EXTENSION plugin once, in order, and never the translator |
| Core.SavedEnablesAsLoaded | lokalise_translation_manager/core.py:395-503 | the reconciliation at the start of the run does not change which plugins of a type step 7 finds enabled |
| PluginManager.LoadPluginConfig | lokalise_translation_manager/utils/plugin_manager.py:102-131 | a parsed file is used as it is; a missing or unparsable file gives the default configuration: no entries, auto-discovery on, fail-on-error off |
| PluginManager.EnabledUnlessSwitchedOff | lokalise_translation_manager/utils/plugin_manager.py:154-182 | a plugin is disabled exactly when it has no entry and auto-discovery is explicitly off, or its entry says `enabled: false` |
| PluginManager.DefaultEnablesAll | lokalise_translation_manager/utils/plugin_manager.py:114-131 | under the default configuration every plugin is enabled |
| PluginManager.DetectPriority | lokalise_translation_manager/utils/plugin_manager.py:185-210 | a file gets ACTION if it has the ACTION marker, else EXTENSION, else PROMPT, each if and only if; no type exactly when the file is unreadable or has no marker |
| PluginManager.DiscoverAllPlugins | lokalise_translation_manager/utils/plugin_manager.py:213-240 | the discovered dictionary is the reference `DiscoverAll` of the listing, and empty when the directory does not exist |
| PluginManager.CollectMembers | lokalise_translation_manager/utils/plugin_manager.py:236-238 | assigning name/type pairs into a dictionary keeps each name once, exactly the names assigned, each with a value assigned to it |
| PluginManager.DiscoverMembers | lokalise_translation_manager/utils/plugin_manager.py:232-238 | for any type detector: a name is discovered exactly when a file of that name other than `__init__.py` gets a type, and it has that file's type |
| PluginManager.DiscoverAllMembers | lokalise_translation_manager/utils/plugin_manager.py:213-240 | a name is discovered exactly when a file of that name other than `__init__.py` carries a marker, with that file's type; each name once |
| PluginManager.SyncPluginConfig | lokalise_translation_manager/utils/plugin_manager.py:243-299 | the saved configuration and the new and missing lists are the reference `Sync` |
| PluginManager.AddDiscovered | lokalise_translation_manager/utils/plugin_manager.py:274-283 | the first loop adds an entry for each discovered name without one and lists those names, as `AddNew` and `NewNames` define |
| PluginManager.MarkMissingPlugins | lokalise_translation_manager/utils/plugin_manager.py:286-290 | the second loop flags `_missing` on, and lists, each entry the discovery did not find |
| PluginManager.ClearFoundPlugins | lokalise_translation_manager/utils/plugin_manager.py:293-295 | the third loop pops `_missing` from every discovered entry |
| PluginManager.AddNewPrefix | lokalise_translation_manager/utils/plugin_manager.py:275-283 | adding keeps the existing entries in front, in order, and appends the new names in discovery order |
| PluginManager.AddNewHasKey | lokalise_translation_manager/utils/plugin_manager.py:275-283 | after adding, the names with an entry are the old ones and the discovered ones |
| PluginManager.AddNewValid | lokalise_translation_manager/utils/plugin_manager.py:276-282 | adding keeps each name once |
| PluginManager.AddNewKeeps | lokalise_translation_manager/utils/plugin_manager.py:276 | an existing entry is never overwritten |
| PluginManager.AddNewEntryOf | lokalise_translation_manager/utils/plugin_manager.py:277-282 | a discovered name without an entry gets an enabled, auto-discovered entry of its discovered type |
| PluginManager.NewNamesMembers | lokalise_translation_manager/utils/plugin_manager.py:276-283 | a name is reported new exactly when it was discovered and had no entry |
| PluginManager.AddNewNothing | lokalise_translation_manager/utils/plugin_manager.py:274-283 | when every discovered name already has an entry nothing is added or reported |
| PluginManager.MissingNamesMembers | lokalise_translation_manager/utils/plugin_manager.py:286-288 | a name is reported missing exactly when it has an entry and was not discovered |
| PluginManager.MarkThenClear | lokalise_translation_manager/utils/plugin_manager.py:286-295 | flagging and then clearing leaves each entry flagged exactly when it was not discovered |
| PluginManager.FlaggedGet | lokalise_translation_manager/utils/plugin_manager.py:286-295 | flagging keeps the names and their order and changes only the `_missing` field |
| PluginManager.SyncFlagsMissing | lokalise_translation_manager/utils/plugin_manager.py:243-299 | every saved entry is flagged `_missing` exactly when the discovery did not find it |
| PluginManager.SyncKeys | lokalise_translation_manager/utils/plugin_manager.py:274-299 | no entry is dropped: the saved names are the old ones plus, with auto-discovery on, the discovered ones |
| PluginManager.SyncKeepsEntries | lokalise_translation_manager/utils/plugin_manager.py:274-299 | an existing entry keeps every field but `_missing`, which is set exactly when the plugin was not discovered |
| PluginManager.SyncAddsNew | lokalise_translation_manager/utils/plugin_manager.py:274-283 | with auto-discovery on, a discovered plugin without an entry gets a new entry and is reported new; otherwise it gets neither |
| PluginManager.SyncPreservesEnabled | lokalise_translation_manager/utils/plugin_manager.py:243-299 | reconciliation changes no plugin's enabled status |
| PluginManager.SyncReportsMissing | lokalise_translation_manager/utils/plugin_manager.py:286-288 | the missing list names exactly the entries the discovery did not find |
| PluginManager.SyncIsIdempotent | lokalise_translation_manager/utils/plugin_manager.py:243-299 | a second reconciliation against the same discovery adds nothing and saves the same configuration |
| PluginManager.GetEnabledPluginsByType | lokalise_translation_manager/utils/plugin_manager.py:302-331 | the list is the reference `EnabledOfType`: the discovered plugins of the type that are enabled, in discovery order |
| PluginManager.EnabledOfTypeMembers | lokalise_translation_manager/utils/plugin_manager.py:326-329 | a name is listed exactly when it was discovered with the type and is enabled |
| PluginManager.ActionAndExtensionIsAction | lokalise_translation_manager/utils/plugin_manager.py:202-205 | a file marked both ACTION and EXTENSION is never listed as an EXTENSION plugin, and is listed as an ACTION plugin exactly when enabled |
| PluginManager.EnabledAreMarked | lokalise_translation_manager/utils/plugin_manager.py:302-331 | every enabled ACTION (EXTENSION) plugin is also on the translator's own ACTION (EXTENSION) list for the same directory |
| TranslateRetry.TranslateText | lokalise_translation_manager/translator/translate_with_openai.py:250-353 | the translation, the waits and the number of requests are the reference `Retry`, and every request sent is the same system-plus-user message |
| TranslateRetry.Attempt | lokalise_translation_manager/translator/translate_with_openai.py:321-353 | the attempt loop gives the text, the waits and the call count as `Retry` defines |
| TranslateRetry.RetryStopsAtFirstNonApiError | lokalise_translation_manager/translator/translate_with_openai.py:321-351 | when attempts 0 to k-1 hit API errors and attempt k does not, the result is attempt k's answer, after k+1 calls and the waits 5, 10, ... for the failures before it |
| TranslateRetry.RetryGivesUpAfterFiveApiErrors | lokalise_translation_manager/translator/translate_with_openai.py:331-347 | five API errors in a row give the empty text after waits of 5, 10, 20 and 40 seconds and five calls |
| TranslateRetry.RetryBounds | lokalise_translation_manager/translator/translate_with_openai.py:321-353 | for any provider: one to five calls, one wait fewer than calls, every call but the last an API error, and a non-empty text only when the last call replied, stripped |
| TranslateRetry.BackoffIsExponential | lokalise_translation_manager/translator/translate_with_openai.py:336 | the wait after failed attempt n is 5 * 2^n seconds |
| TranslateRetry.DelayAt | lokalise_translation_manager/translator/translate_with_openai.py:334-341 | the i-th recorded wait is the back-off of attempt n+i, and there is one wait per failed attempt before the last |
| TranslatePlugins.MarkedNames | lokalise_translation_manager/translator/translate_with_openai.py:449-462 | at most one listed name per file |
| TranslatePlugins.MarkedNamesMembers | lokalise_translation_manager/translator/translate_with_openai.py:449-462 | a name is listed exactly when a file of that name is readable and carries the marker |
| TranslatePlugins.DiscoverPlugins | lokalise_translation_manager/translator/translate_with_openai.py:399-470 | the three lists are the reference `Discover`: empty without a directory, `__init__.py` and unreadable files skipped, a file on every list whose marker it contains |
| TranslatePlugins.PromptTexts | lokalise_translation_manager/translator/translate_with_openai.py:506-512 | at most one text per requested plugin |
| TranslatePlugins.LoadPromptPlugins | lokalise_translation_manager/translator/translate_with_openai.py:473-514 | the addons are the readable PROMPT texts joined by single spaces, unreadable ones left out |
| TranslatePlugins.DiscoveredPromptsAreRead | lokalise_translation_manager/translator/translate_with_openai.py:473-514 | every discovered PROMPT plugin is readable, so each contributes its text |
| TranslatePlugins.RunPlugins | lokalise_translation_manager/translator/translate_with_openai.py:517-590 | the bypass signal and the plugins called are the reference `RunPhase` |
| TranslatePlugins.ExtensionPhaseRunsAll | lokalise_translation_manager/translator/translate_with_openai.py:582-590 | the EXTENSION phase never signals a bypass and calls every plugin that defines `filter_translations` |
| TranslatePlugins.ActionBypassStopsAtFirst | lokalise_translation_manager/translator/translate_with_openai.py:574-580 | the ACTION phase stops at the first plugin whose `run()` returns `True`, having called the callable plugins up to it and none after |
| TranslatePlugins.ActionWithoutBypass | lokalise_translation_manager/translator/translate_with_openai.py:564-590 | without a `True` from any `run()` the ACTION phase calls every callable plugin and does not bypass |
| TranslateRun.Pending | lokalise_translation_manager/translator/translate_with_openai.py:756 | the resume filter keeps, in queue order, only records of the queue whose key is not complete |
| TranslateRun.PendingMembers | lokalise_translation_manager/translator/translate_with_openai.py:756 | a record is pending exactly when it is in the queue and its key is not complete |
| TranslateRun.InCompleted | lokalise_translation_manager/translator/translate_with_openai.py:381-394 | the cell under the last `key_id` column of every line of a readable store long enough to reach it counts as a complete key |
| TranslateRun.Opened | lokalise_translation_manager/translator/translate_with_openai.py:769-777 | opening the store for append leaves it present, writing the header only into an empty store |
| TranslateRun.OutputStore.constructor | lokalise_translation_manager/translator/translate_with_openai.py:769 | a store over the given file contents |
| TranslateRun.OutputStore.Open | lokalise_translation_manager/translator/translate_with_openai.py:769-777 | opening changes the store exactly as `Opened` does |
| TranslateRun.OutputStore.Append | lokalise_translation_manager/translator/translate_with_openai.py:828-829 | writing a record appends exactly its line after the existing ones |
| TranslateRun.TranslateLangs | lokalise_translation_manager/translator/translate_with_openai.py:810-822 | the language loop of a record gives the reference `LangsWork`: one `translate_text` per target language |
| TranslateRun.TranslateRow | lokalise_translation_manager/translator/translate_with_openai.py:798-827 | one record's results are the reference `RowOutcome`: no call for a blank source text |
| TranslateRun.AppendRecord | lokalise_translation_manager/translator/translate_with_openai.py:798-829 | one record is translated as `RowOutcome` defines and its line under the field names, with its `translated` cell, is appended after the existing lines |
| TranslateRun.TranslatePending | lokalise_translation_manager/translator/translate_with_openai.py:779-829 | the row loop appends exactly the lines of the session's records, cell by cell under the field names, after the old lines, and the session is the reference `RowsWork` |
| TranslateRun.ResumeRun | lokalise_translation_manager/translator/translate_with_openai.py:740-829 | everything after the ACTION phase, filtered by the complete keys read before it, leaves the store and reports the outcome as `ResumeFrom` defines |
| TranslateRun.RunTranslation | lokalise_translation_manager/translator/translate_with_openai.py:648-839 | `run_translation` gives the report and the final store of the reference `RunSpec`, in which the complete keys are read before the ACTION phase and each ACTION or EXTENSION plugin the run calls leaves the output store as that plugin's effect says |
| TranslateRun.OutputStore.Rewrite | lokalise_translation_manager/plugins/myPayments.py:105-108 | a plugin that rewrites the output file leaves exactly the store it wrote |
| TranslateRun.ApplyEffects | lokalise_translation_manager/translator/translate_with_openai.py:564-589 | calling the plugins a phase invokes, in order, leaves the store as `AfterPhase` composes their effects in that phase |
| TranslateRun.LangsWorkShape | lokalise_translation_manager/translator/translate_with_openai.py:810-822 | each target language gets exactly one result, in order; the success count is the number of non-empty results; every request carries the source text and one of the record's languages |
| TranslateRun.RowOutcomeShape | lokalise_translation_manager/translator/translate_with_openai.py:798-822 | one result per target language whatever the source text; a blank source text calls nothing and counts no success |
| TranslateRun.TranslatedCellRoundTrip | lokalise_translation_manager/translator/translate_with_openai.py:827 | the `translated` cell splits back into the per-language results when there is a language and no result contains `|` |
| TranslateRun.Translatable | lokalise_translation_manager/translator/translate_with_openai.py:783-790 | the records with the required columns are a subsequence of at most the queue's length |
| TranslateRun.TranslatableMembers | lokalise_translation_manager/translator/translate_with_openai.py:783-790 | a record is translatable exactly when it is in the queue and has `key_id`, `translation` and `languages` |
| TranslateRun.AppendedRecords | lokalise_translation_manager/translator/translate_with_openai.py:779-829 | the records appended are the records with the required columns, in order, each with its `translated` cell set and nothing else changed |
| TranslateRun.EveryTranslatableRowAppended | lokalise_translation_manager/translator/translate_with_openai.py:779-829 | every record with the required columns is appended with its own `key_id`, whether or not its translations succeeded |
| TranslateRun.AppendedAreKeyed | lokalise_translation_manager/translator/translate_with_openai.py:826-828 | every appended record carries a `key_id` |
| TranslateRun.UntranslatableRowsDoNothing | lokalise_translation_manager/translator/translate_with_openai.py:783-790 | a queue whose records all lack a required column sends nothing and appends nothing |
| TranslateRun.StoreOnlyGrows | lokalise_translation_manager/translator/translate_with_openai.py:742-829 | the store is untouched unless records were translated, and then the old lines are followed by one line per appended record, written under the queue header plus `translated`; a non-empty store keeps its header |
| TranslateRun.AfterPassReadable | lokalise_translation_manager/translator/translate_with_openai.py:756-829 | a translating pass over a readable store that is empty or has the queue's header leaves it readable, not empty, with that header, and holding the old lines followed by the session's |
| TranslateRun.AfterPassCompletes | lokalise_translation_manager/translator/translate_with_openai.py:756-829 | after a translating pass on a store whose header fits, every queue record with the required columns reads back as complete |
| TranslateRun.ResumeCompletes | lokalise_translation_manager/translator/translate_with_openai.py:740-829 | after the queue is handled on a readable store whose header fits, the store is readable, not empty, still fits, and every queue record with the required columns reads back as complete |
| TranslateRun.ResumeTwice | lokalise_translation_manager/translator/translate_with_openai.py:740-829 | a second pass over the same queue, after one on a store whose header fits, sends no request and changes nothing |
| TranslateRun.ResumeIsIdempotent | lokalise_translation_manager/translator/translate_with_openai.py:648-839 | when the ACTION and EXTENSION plugins the run calls leave the output store alone, running again on what a run left behind, from a store that was empty or has the queue's header, sends no request and leaves the store as it was, whatever the service answers the second time |
| TranslateRun.AfterUntouching | lokalise_translation_manager/translator/translate_with_openai.py:564-589 | the plugins of a phase that each leave the store alone leave it alone together |
| TranslateRun.AfterKeeping | lokalise_translation_manager/translator/translate_with_openai.py:564-589 | the plugins of a phase that each keep the complete keys complete do so together |
| TranslateRun.SecondRunSendsNothing | lokalise_translation_manager/translator/translate_with_openai.py:648-839 | when the ACTION plugins the run calls leave the output store alone and its EXTENSION plugins keep every complete key complete, a second run sends no request, whatever the service answers either time |
| TranslateRun.ReadBackCell | lokalise_translation_manager/plugins/myPayments.py:31-33 | a record written under field names reads back, under the same names, with its own cell in each of its columns |
| TranslateRun.UrlRecordDeleted | lokalise_translation_manager/plugins/myPayments.py:95-108 | myPayments' deletion empties a store whose only record carries a URL in its `translation` cell, leaving no complete key |
| TranslateRun.PaymentsRewriteRetranslates | lokalise_translation_manager/plugins/myPayments.py:24-108 | a record whose source text carries a URL is completed by a first run, deleted again by the myPayments EXTENSION plugin, and found pending, translated and appended once more by the next run |
| TranslateRun.MismatchedHeaderWritesAgain | lokalise_translation_manager/translator/translate_with_openai.py:381-394 | on a store whose header differs from the queue's, a record appended by one run reads back under the wrong column, so the next run translates and appends it again |
| TranslateRun.KeysUnderForeignHeader | lokalise_translation_manager/translator/translate_with_openai.py:386-388 | under a header of `key_id` alone, the keys read back are the first cells of the lines |
| TranslateRun.KeyCell | lokalise_translation_manager/translator/translate_with_openai.py:772-777 | a record written under field names that include `key_id` has its key in the column the reader takes `key_id` from |
| TranslateRun.LastIndex | lokalise_translation_manager/translator/translate_with_openai.py:386-388 | the position the reader takes a column from: its last occurrence in the header, or none exactly when it is absent |
| LokaliseMock.DefaultKeysWellFormed | tests/mocks/lokalise_mock.py:51-94 | the sample store holds keys 123, 124 and 125, in that order, each with distinct locales |
| LokaliseMock.SliceBound | tests/mocks/lokalise_mock.py:139-141 | a slice bound is clamped into the list and is exact inside it |
| LokaliseMock.Paginate | tests/mocks/lokalise_mock.py:139-151 | a page reply fails exactly for a zero limit (the page count divides by it), and reports the total, the page and the limit asked for |
| LokaliseMock.PageIsWindow | tests/mocks/lokalise_mock.py:139-141 | for positive pages and limits a page is the window from (page-1)*limit of length limit, cut to the list |
| LokaliseMock.PageCountRoundsUp | tests/mocks/lokalise_mock.py:149 | the page count is the total divided by the limit, rounded up |
| LokaliseMock.PagesTile | tests/mocks/lokalise_mock.py:139-141 | reading pages 1 to k in turn yields the first k*limit items |
| LokaliseMock.AllPagesCoverList | tests/mocks/lokalise_mock.py:139-151 | reading pages 1 to the page count in turn yields the whole list |
| LokaliseMock.CollectExact | tests/mocks/lokalise_mock.py:125-136 | a value is collected exactly when some element yields it |
| LokaliseMock.LocaleRows | tests/mocks/lokalise_mock.py:125-136 | at most one downloaded row per key |
| LokaliseMock.LocaleRowsExact | tests/mocks/lokalise_mock.py:125-136 | a row is downloaded exactly when some key has the locale and contributes that row |
| LokaliseMock.RowReportsTranslation | tests/mocks/lokalise_mock.py:126-136 | a downloaded row carries the key id, the locale and the key's stored translation for it |
| LokaliseMock.KeyList | tests/mocks/lokalise_mock.py:178-188 | one entry per key, in key order, with its id and name, and with its translations exactly when asked for |
| LokaliseMock.FindTranslation | tests/mocks/lokalise_mock.py:229-230 | the position of the first translation with the id, or the end when there is none |
| LokaliseMock.FindKey | tests/mocks/lokalise_mock.py:228-230 | the position of the first key holding a translation with the id, or the end |
| LokaliseMock.UpdateTouchesOnlyMatch | tests/mocks/lokalise_mock.py:228-241 | a successful update changes only the translation it reports, which gets the new text and loses its review flag; it fails exactly when no key holds the id, and then changes nothing |
| LokaliseMock.DeleteKeysExact | tests/mocks/lokalise_mock.py:264-274 | deleting removes exactly the listed ids that exist, leaves the other keys as they were, and reports each deleted id once |
| LokaliseMock.AddedTranslations | tests/mocks/lokalise_mock.py:298-305 | the translations built for a new key have each locale once |
| LokaliseMock.AddedTranslationsGet | tests/mocks/lokalise_mock.py:298-305 | each given locale gets id `trans_{key_id}_{locale}`, its text, and a review flag set exactly when the text is non-empty |
| LokaliseMock.PutWellFormed | tests/mocks/lokalise_mock.py:290-305 | storing a key whose locales are distinct keeps the store well formed |
| LokaliseMock.AddKeyReadsBack | tests/mocks/lokalise_mock.py:276-305 | after `add_key`, the added key reads back with the given translations and every other key as before |
| LokaliseMock.BuildTranslations | tests/mocks/lokalise_mock.py:298-305 | the loop over the given texts builds exactly `AddedTranslations` |
| LokaliseMock.LocateTranslation | tests/mocks/lokalise_mock.py:228-230 | the nested scan finds the first key holding the id and, in it, the first translation with it |
| LokaliseMock.MockLokaliseAPI.constructor | tests/mocks/lokalise_mock.py:43-94 | a new mock holds the sample keys, no request counted, failure mode off |
| LokaliseMock.MockLokaliseAPI.DownloadTranslations | tests/mocks/lokalise_mock.py:96-151 | the request is counted; failure mode raises; otherwise the reply is the page of the locale's rows and the store is unchanged |
| LokaliseMock.MockLokaliseAPI.ListKeys | tests/mocks/lokalise_mock.py:153-202 | the request is counted; failure mode raises; otherwise the reply is the page of the key list and the store is unchanged |
| LokaliseMock.MockLokaliseAPI.UpdateTranslation | tests/mocks/lokalise_mock.py:204-241 | the request is counted; failure mode raises and changes nothing; otherwise reply and store are those of `UpdateSpec` |
| LokaliseMock.MockLokaliseAPI.DeleteKeys | tests/mocks/lokalise_mock.py:243-274 | the request is counted; failure mode raises and changes nothing; otherwise the store and the reply are those of `DeleteSpec` |
| LokaliseMock.MockLokaliseAPI.AddKey | tests/mocks/lokalise_mock.py:276-305 | the key is stored (overwritten or appended) with its translations; nothing is counted |
| LokaliseMock.MockLokaliseAPI.Reset | tests/mocks/lokalise_mock.py:307-313 | back to the sample keys, no request counted, failure mode off |
| LokaliseMock.MockLokaliseAPI.SetFailureMode | tests/mocks/lokalise_mock.py:315-322 | only the failure switch changes |
| OpenAiMock.UnknownPhraseIsTagged | tests/mocks/openai_mock.py:111-117 | a phrase missing from the table comes back whole behind the tag `[LANG:<code>] ` |
| OpenAiMock.LastUser | tests/mocks/openai_mock.py:178-181 | the position of the last message whose role is `user`, and none exactly when there is no such message |
| OpenAiMock.FirstSystem | tests/mocks/openai_mock.py:188-198 | the position of the first message whose role is `system`, and none exactly when there is no such message |
| OpenAiMock.UserText | tests/mocks/openai_mock.py:177-184 | the text to translate is never empty: a missing or empty user message becomes a fixed text |
| OpenAiMock.WordRun | tests/mocks/openai_mock.py:195 | the run of word characters from a position is maximal: every character in it is a word character and the next one is not |
| OpenAiMock.SearchCode | tests/mocks/openai_mock.py:195-197 | the search finds a code at some position from the start on, and none exactly when the pattern matches nowhere |
| OpenAiMock.CodeAtSpellsCode | tests/mocks/openai_mock.py:195-197 | a code found is a non-empty word spelled out between the marker and a backtick |
| OpenAiMock.TargetLanguageIsQuoted | tests/mocks/openai_mock.py:187-198 | the target language is "unknown" unless the first system message contains "into **" and spells the code out between the marker and a backtick |
| OpenAiMock.ReadUserText | tests/mocks/openai_mock.py:177-184 | the backward scan for the user message gives `UserText` |
| OpenAiMock.ReadTargetLanguage | tests/mocks/openai_mock.py:187-198 | the scan for the first system message gives `TargetLanguage` |
| OpenAiMock.CountPromptTokens | tests/mocks/openai_mock.py:204 | the prompt-token loop sums two tokens per word over every message |
| OpenAiMock.MockOpenAIAPI.constructor | tests/mocks/openai_mock.py:60-66 | a new mock has zero counters, failure mode off with the generic kind, and the default phrase table |
| OpenAiMock.MockOpenAIAPI.Translate | tests/mocks/openai_mock.py:68-117 | the request is counted first; failure mode raises the configured kind without charging tokens; otherwise two tokens per word are charged and the phrase table answers |
| OpenAiMock.MockOpenAIAPI.TranslateBatch | tests/mocks/openai_mock.py:119-141 | each text is translated in turn, one request each; in failure mode the first one raises and ends the batch |
| OpenAiMock.MockOpenAIAPI.ChatCompletion | tests/mocks/openai_mock.py:143-230 | the request is counted; failure mode raises; otherwise the reply translates the last user message into the first system message's code, with a second counted request, and reports and charges the prompt and completion tokens |
| OpenAiMock.MockOpenAIAPI.AddTranslation | tests/mocks/openai_mock.py:232-241 | one phrase is added or replaced and nothing else changes |
| OpenAiMock.MockOpenAIAPI.Reset | tests/mocks/openai_mock.py:243-249 | back to the default phrase table, zero counters and the generic non-failing mode |
| OpenAiMock.MockOpenAIAPI.SetFailureMode | tests/mocks/openai_mock.py:251-260 | only the failure switch and kind change |
| DownloadKeys.FetchPages | lokalise_translation_manager/utils/download_lokalise_keys.py:144-197 | `fetch_translations` (and `fetch_keys`, lines 263-318, the same loop over key pages) returns what the reference `Fetch` collects and requests the pages `Fetch` requests |
| DownloadKeys.PageNumbers | lokalise_translation_manager/utils/download_lokalise_keys.py:179-192 | the numbers from a start, one after the other |
| DownloadKeys.FetchStopsAtFirstEmptyPage | lokalise_translation_manager/utils/download_lokalise_keys.py:181-197 | when pages 1..k have items and page k+1 is empty or fails, pages 1..k+1 are requested and the items of pages 1..k are returned in order |
| DownloadKeys.PagesRequestedInOrder | lokalise_translation_manager/utils/download_lokalise_keys.py:179-192 | whatever the replies, pages are requested as 1, 2, 3, ... without gaps |
| DownloadKeys.EnRowsFilter | lokalise_translation_manager/utils/download_lokalise_keys.py:233-242 | the English file is a filter: it distributes over concatenation and holds a translation's row exactly when its language is `en` |
| DownloadKeys.Languages | lokalise_translation_manager/utils/download_lokalise_keys.py:250 | the language codes of the translations, position by position |
| DownloadKeys.TranslationIds | lokalise_translation_manager/utils/download_lokalise_keys.py:251 | the translation ids of the translations, position by position |
| DownloadKeys.GroupSnoc | lokalise_translation_manager/utils/download_lokalise_keys.py:245-251 | grouping one more translation touches only its key's lists, appending its code and id |
| DownloadKeys.GroupKeys | lokalise_translation_manager/utils/download_lokalise_keys.py:245-251 | a key is grouped exactly when some translation has it |
| DownloadKeys.GroupLists | lokalise_translation_manager/utils/download_lokalise_keys.py:245-251 | the two lists of a key are the codes and the ids of its translations in input order, so they pair up position by position |
| DownloadKeys.IdRows | lokalise_translation_manager/utils/download_lokalise_keys.py:253-257 | `all_translation_ids.csv` is the header and one row per key: the id, the codes joined by ",", the ids joined by "," |
| DownloadKeys.SaveTranslations | lokalise_translation_manager/utils/download_lokalise_keys.py:199-261 | the English file is the header and the English rows; the id file is the grouped rows |
| DownloadKeys.EnglishRows | lokalise_translation_manager/utils/download_lokalise_keys.py:236-242 | the English loop writes exactly the English rows, in order |
| DownloadKeys.GroupByKey | lokalise_translation_manager/utils/download_lokalise_keys.py:245-251 | the grouping loop builds exactly `Group`, keys in first-seen order |
| DownloadKeys.FirstName | lokalise_translation_manager/utils/download_lokalise_keys.py:358 | the first platform name of a key, or "" when it has none |
| DownloadKeys.SaveKeysToCsv | lokalise_translation_manager/utils/download_lokalise_keys.py:320-362 | the header, then one row per key with its id and first name, in order |
| DownloadKeys.KeysDictLastWins | lokalise_translation_manager/utils/download_lokalise_keys.py:401-406 | a name maps to the id of the last key row with that name; names of no row are absent |
| DownloadKeys.MergeKeysWithMissingTranslations | lokalise_translation_manager/utils/download_lokalise_keys.py:364-418 | the merged file is the reference `MergeKeysSpec`: nothing when an input file is absent, else the header and one joined row per missing row up to the first empty row |
| DownloadKeys.JoinedRowFields | lokalise_translation_manager/utils/download_lokalise_keys.py:412-415 | each missing row keeps its name and codes and gains the id of the last key row with its name |
| DownloadKeys.JoinedRowUnknown | lokalise_translation_manager/utils/download_lokalise_keys.py:414-415 | a missing row whose name no key row has gets an empty id |
| Normalize.Codes | lokalise_translation_manager/utils/normalize_translations.py:102-106 | every code kept is a value of the language table |
| Normalize.Counted | lokalise_translation_manager/utils/normalize_translations.py:107 | counting touches only the existing counters |
| Normalize.InitialCounts | lokalise_translation_manager/utils/normalize_translations.py:114 | the counters start at zero, one per value of the language table |
| Normalize.NormalizeLanguages | lokalise_translation_manager/utils/normalize_translations.py:87-108 | the normalised string is the kept codes joined by ",", and each kept code is counted once more |
| Normalize.NormalizeWith | lokalise_translation_manager/utils/normalize_translations.py:102-108 | for any table, the part loop joins exactly the kept codes and counts each of them |
| Normalize.CodesKeepOrder | lokalise_translation_manager/utils/normalize_translations.py:102-106 | the kept codes of concatenated parts are the concatenation of their kept codes: order is preserved |
| Normalize.CodesOfOne | lokalise_translation_manager/utils/normalize_translations.py:103-106 | one part gives its table entry once stripped, or nothing when the table does not know it |
| Normalize.CountedAdds | lokalise_translation_manager/utils/normalize_translations.py:107 | each counter grows by the number of times its code was kept, and no counter is added |
| Normalize.JoinEmpty | lokalise_translation_manager/utils/normalize_translations.py:151-154 | the normalised string is empty exactly when no code was kept, so a key is skipped exactly then |
| Normalize.TableValuesNonEmpty | lokalise_translation_manager/utils/normalize_translations.py:74-79 | no code of the table is empty |
| Normalize.NotIdempotent | lokalise_translation_manager/utils/normalize_translations.py:74-79 | normalising is not idempotent: "lt" becomes "lt_LT", and "lt_LT" is then dropped |
| Normalize.MergedData | lokalise_translation_manager/utils/normalize_translations.py:129 | reading `merged_result.csv` keeps each key id once, a later row replacing the earlier one in its place |
| Normalize.MergedDataKeySet | lokalise_translation_manager/utils/normalize_translations.py:129 | the entries are keyed by exactly the key ids read |
| Normalize.MergedDataSize | lokalise_translation_manager/utils/normalize_translations.py:129 | one entry per distinct key id |
| Normalize.MergeLoop | lokalise_translation_manager/utils/normalize_translations.py:143-166 | the merge loop touches only the existing counters |
| Normalize.MergeStep | lokalise_translation_manager/utils/normalize_translations.py:144-166 | one turn touches only the existing counters |
| Normalize.MergeLoopCounts | lokalise_translation_manager/utils/normalize_translations.py:143-166 | every entry is counted once, as merged or as skipped, and one row is written per merged entry |
| Normalize.PickedMembers | lokalise_translation_manager/utils/normalize_translations.py:143-163 | something is picked exactly when some element gives it |
| Normalize.MergeLoopOutput | lokalise_translation_manager/utils/normalize_translations.py:143-173 | the rows written are the rows the entries pick, in order |
| Normalize.MissingInputCrashes | lokalise_translation_manager/utils/normalize_translations.py:118-190 | as written, a missing input file ends in an exception from the summary |
| Normalize.AsWrittenAgreesWithBothFiles | lokalise_translation_manager/utils/normalize_translations.py:118-190 | as written and as intended agree whenever both files exist |
| Normalize.SummaryAccountsForEveryKey | lokalise_translation_manager/utils/normalize_translations.py:110-199 | as intended, every run ends with a summary, and merged plus skipped is the number of distinct key ids read |
| Normalize.OutputRows | lokalise_translation_manager/utils/normalize_translations.py:143-173 | a row is written exactly for each distinct key id that English has and whose languages keep some code, with the kept codes and the English id and text |
| Normalize.ProcessNormalization | lokalise_translation_manager/utils/normalize_translations.py:110-199 | the run is `process_normalization` with the missing-file path as intended |
| Normalize.MergeEntries | lokalise_translation_manager/utils/normalize_translations.py:144-166 | the loop over the merged entries is `MergeLoop` |
| Normalize.MergeEntry | lokalise_translation_manager/utils/normalize_translations.py:145-166 | one turn of that loop is `MergeStep` |
| Normalize.ReadMergedData | lokalise_translation_manager/utils/normalize_translations.py:129 | the dictionary comprehension is `MergedData` |
| PrepareTranslations.ZipDict | lokalise_translation_manager/utils/prepare_translations.py:108 | every value of the zipped dictionary is one of the ids |
| PrepareTranslations.ZipDictEntries | lokalise_translation_manager/utils/prepare_translations.py:108 | the zip stops at the shorter list: a code is present exactly when it is among the first min(codes, ids) codes, and maps to the id paired with its last occurrence there |
| PrepareTranslations.LookupLastWins | lokalise_translation_manager/utils/prepare_translations.py:99-108 | a key id has a lookup exactly when some row names it, and the last such row decides it |
| PrepareTranslations.LoadTranslationIdLookup | lokalise_translation_manager/utils/prepare_translations.py:78-111 | no lookup when `all_translation_ids.csv` is missing; otherwise the lookup of its rows |
| PrepareTranslations.LoadWith | lokalise_translation_manager/utils/prepare_translations.py:99-108 | the row loop builds exactly `LookupWith` |
| PrepareTranslations.IdsFor | lokalise_translation_manager/utils/prepare_translations.py:152-163 | one id per needed language, in order: the looked-up id, or "" |
| PrepareTranslations.MapRows | lokalise_translation_manager/utils/prepare_translations.py:145-172 | one output row per input row, in order |
| PrepareTranslations.EnrichedRows | lokalise_translation_manager/utils/prepare_translations.py:143-172 | one enriched row per normalised row, in order |
| PrepareTranslations.FinalTranslationIds | lokalise_translation_manager/utils/prepare_translations.py:150-163 | the language loop of a row gives `IdsFor` |
| PrepareTranslations.EnrichAndSaveTranslations | lokalise_translation_manager/utils/prepare_translations.py:113-179 | nothing when the normalised file is missing; otherwise the enriched rows |
| PrepareTranslations.EnrichRows | lokalise_translation_manager/utils/prepare_translations.py:145-172 | the row loop gives `MapRows` of the enrichment |
| PrepareTranslations.Prepare | lokalise_translation_manager/utils/prepare_translations.py:181-190 | a file is written exactly when both inputs exist, and it holds the enriched rows |
| PrepareTranslations.TurkishHotfix | lokalise_translation_manager/utils/prepare_translations.py:155 | Turkish is looked up under `tr` while the language list keeps `tr_TR` |
| PrepareTranslations.ColumnsAlign | lokalise_translation_manager/utils/prepare_translations.py:169-170 | the language and id columns of an output row split on "," into lists of the same length, the languages giving back the needed list |
| PrepareTranslations.JoinedAlign | lokalise_translation_manager/utils/prepare_translations.py:169-170 | two comma-free lists of the same length join into columns that split back alike |
| PrepareTranslations.LookupCommaFree | lokalise_translation_manager/utils/prepare_translations.py:104-108 | the ids in the lookup contain no comma, since they come out of a comma split |
| UploadTranslations.UpdateTranslations | lokalise_translation_manager/utils/upload_translations.py:146-300 | the run is the reference `UpdateSpec`: nothing without credentials or input rows, otherwise the row loop's requests, reports and counts |
| UploadTranslations.UploadRows | lokalise_translation_manager/utils/upload_translations.py:220-272 | the row loop is `UploadWith` |
| UploadTranslations.UploadTriples | lokalise_translation_manager/utils/upload_translations.py:233-272 | the loop over one matching row's zipped triples is `Triples` |
| UploadTranslations.TripleAccounted | lokalise_translation_manager/utils/upload_translations.py:233-272 | one triple keeps the bookkeeping and adds exactly one success or failure |
| UploadTranslations.TriplesAccounted | lokalise_translation_manager/utils/upload_translations.py:233-272 | a row's n triples keep the bookkeeping and add exactly n successes and failures |
| UploadTranslations.UploadAccounted | lokalise_translation_manager/utils/upload_translations.py:220-272 | over the whole loop the bookkeeping holds, and every language of every row is counted exactly once, as a success or as a failure |
| UploadTranslations.UpdateAccounted | lokalise_translation_manager/utils/upload_translations.py:198-292 | one report row per success; requests are the successes plus the non-200 responses, each failure row with a non-200 status; every request has a translation id; a one-second pause after every sixth request; successes plus failures are the number of languages |
| UploadTranslations.NoRequestWithoutInput | lokalise_translation_manager/utils/upload_translations.py:194-216 | missing credentials, a missing file or an empty file send nothing |
| UploadTranslations.MismatchSendsNothing | lokalise_translation_manager/utils/upload_translations.py:227-231 | a row whose counts differ sends nothing and counts each of its languages as a failure |
| UploadTranslations.JoinedRowMatches | lokalise_translation_manager/utils/upload_translations.py:223-227 | a row written as the translator writes it splits back into its lists and passes the count check |
| CleanupUnusedKeys.LoadedAreStripped | lokalise_translation_manager/utils/cleanup_unused_keys.py:139-140 | the loaded keys are already stripped |
| CleanupUnusedKeys.FirstCellsMembers | lokalise_translation_manager/utils/cleanup_unused_keys.py:139-140 | the rows load exactly when none is empty (`row[0]` raises on an empty row), and then give exactly the cleaned first cells |
| CleanupUnusedKeys.LoadKeys | lokalise_translation_manager/utils/cleanup_unused_keys.py:119-141 | `load_keys` is `LoadKeysSpec`: the empty set for a missing file |
| CleanupUnusedKeys.AddFirstCells | lokalise_translation_manager/utils/cleanup_unused_keys.py:139-140 | the row loop adds exactly the cleaned first cells, and fails at an empty row |
| CleanupUnusedKeys.FailsOnward | lokalise_translation_manager/utils/cleanup_unused_keys.py:139-140 | once a prefix of the rows fails to load, the whole file does |
| CleanupUnusedKeys.MinExists | lokalise_translation_manager/utils/cleanup_unused_keys.py:173 | every non-empty set of keys has a least element in code-point order |
| CleanupUnusedKeys.MinOf | lokalise_translation_manager/utils/cleanup_unused_keys.py:173 | the least key is in the set and below every other |
| CleanupUnusedKeys.SortedList | lokalise_translation_manager/utils/cleanup_unused_keys.py:173 | `sorted` of a set lists exactly its elements |
| CleanupUnusedKeys.SortedListSorted | lokalise_translation_manager/utils/cleanup_unused_keys.py:173 | the sorted list is strictly increasing, so each key appears once |
| CleanupUnusedKeys.SortedKeys | lokalise_translation_manager/utils/cleanup_unused_keys.py:173 | taking out the least remaining key until none is left gives `SortedList` |
| CleanupUnusedKeys.Column | lokalise_translation_manager/utils/cleanup_unused_keys.py:171-174 | one row per key, holding just that key |
| CleanupUnusedKeys.MergeKeys | lokalise_translation_manager/utils/cleanup_unused_keys.py:143-177 | `merge_keys` is `MergeKeysSpec`: it fails when both reports are empty or missing, otherwise writes the sorted union |
| CleanupUnusedKeys.MergedIsSortedUnion | lokalise_translation_manager/utils/cleanup_unused_keys.py:162-174 | the merged file lists every key of either report once, in increasing order |
| CleanupUnusedKeys.ReadBackMerged | lokalise_translation_manager/utils/cleanup_unused_keys.py:171-174 | reading the merged file back with `load_keys` gives the set it was written from |
| CleanupUnusedKeys.ReadBack | lokalise_translation_manager/utils/cleanup_unused_keys.py:139-140 | cleaning a column of already clean keys gives their set |
| CleanupUnusedKeys.LokaliseKeys | lokalise_translation_manager/utils/cleanup_unused_keys.py:207-213 | the name-to-id dictionary has each name once |
| CleanupUnusedKeys.LokaliseKeysLastWins | lokalise_translation_manager/utils/cleanup_unused_keys.py:212-213 | a duplicated name keeps the id of its last row |
| CleanupUnusedKeys.UnusedMembers | lokalise_translation_manager/utils/cleanup_unused_keys.py:215-219 | the unused list holds exactly the (id, name) entries of the dictionary whose name is not used |
| CleanupUnusedKeys.UnusedDistinct | lokalise_translation_manager/utils/cleanup_unused_keys.py:215-219 | each name is listed at most once |
| CleanupUnusedKeys.UnusedNamed | lokalise_translation_manager/utils/cleanup_unused_keys.py:215-219 | every listed name is a Lokalise key name |
| CleanupUnusedKeys.FilterLokaliseKeys | lokalise_translation_manager/utils/cleanup_unused_keys.py:179-228 | nothing when `lokalise_keys.csv` is absent; otherwise the unused entries |
| CleanupUnusedKeys.Payload | lokalise_translation_manager/utils/cleanup_unused_keys.py:282 | the payload lists the ids in list order |
| CleanupUnusedKeys.Cleanup | lokalise_translation_manager/utils/cleanup_unused_keys.py:292-352 | the cleanup run is `CleanupSpec` |
| CleanupUnusedKeys.DeleteKeysFromLokalise | lokalise_translation_manager/utils/cleanup_unused_keys.py:230-290 | the delete step is `DeleteSpec`: nothing without credentials, else one request with the ids |
| CleanupUnusedKeys.DeleteOnlyWhenConfirmed | lokalise_translation_manager/utils/cleanup_unused_keys.py:321-349 | a delete request goes out only after the answer y, only for a non-empty unused list, and carries exactly its ids in order |
| CleanupUnusedKeys.DecideSendsOnlyWhenConfirmed | lokalise_translation_manager/utils/cleanup_unused_keys.py:326-349 | after the unused list is known, a request goes out only when confirmed and the list is not empty, with the list's ids |
| CleanupUnusedKeys.StopsEarly | lokalise_translation_manager/utils/cleanup_unused_keys.py:321-328 | a failed merge ends the step before the Lokalise keys are read; an empty unused list sends nothing |
| CleanupUnusedKeys.DeletableAreUnused | lokalise_translation_manager/utils/cleanup_unused_keys.py:162-228 | with both reports and the Lokalise keys readable, the deletion list is exactly the Lokalise keys named in neither report |
| CleanupUnusedKeys.DeletableAfterMerge | lokalise_translation_manager/utils/cleanup_unused_keys.py:206-219 | after a merge whose file reads back as the used set, the deletion list is the unused Lokalise keys |
| CleanupUnusedKeys.DecideReportsList | lokalise_translation_manager/utils/cleanup_unused_keys.py:221-225 | whatever is decided, the deletion list is written |
| LanguageConfig.BuildNames | lokalise_translation_manager/utils/language_config.py:169-181 | the names loop builds exactly `Names`: each entry under its code, then under its Lokalise code when that differs |
| LanguageConfig.BuildMappings | lokalise_translation_manager/utils/language_config.py:204-209 | the mappings loop builds exactly `Mappings`: each code to its Lokalise code |
| LanguageConfig.NamesKeys | lokalise_translation_manager/utils/language_config.py:169-181 | a name is found for exactly the codes and Lokalise codes of the entries |
| LanguageConfig.NamesLastWriter | lokalise_translation_manager/utils/language_config.py:170-179 | the name found is that of the last entry written under the code |
| LanguageConfig.MappingsOfEntries | lokalise_translation_manager/utils/language_config.py:205-207 | every configured code maps to its Lokalise code, or to itself when none is given |
| LanguageConfig.MappingsKeys | lokalise_translation_manager/utils/language_config.py:204-209 | the mappings are keyed by exactly the configured codes |
| LanguageConfig.UnknownCodesUnchanged | lokalise_translation_manager/utils/language_config.py:232-266 | an unknown code comes back unchanged from both lookups |
| LanguageConfig.LanguageConfigCache.constructor | lokalise_translation_manager/utils/language_config.py:71 | the cache starts empty |
| LanguageConfig.LanguageConfigCache.LoadLanguageConfig | lokalise_translation_manager/utils/language_config.py:98-142 | the cached configuration is returned unless the cache is empty or a reload is forced; otherwise the file (or the built-in table) is read and cached |
| LanguageConfig.LanguageConfigCache.ReloadConfig | lokalise_translation_manager/utils/language_config.py:269-283 | a reload caches what the file holds now |
| LanguageConfig.LanguageConfigCache.GetLanguageNames | lokalise_translation_manager/utils/language_config.py:145-181 | the names of the cached configuration, filling the cache first when it is empty |
| LanguageConfig.LanguageConfigCache.GetLokaliseMappings | lokalise_translation_manager/utils/language_config.py:184-209 | the mappings of the cached configuration, filling the cache first when it is empty |
| LanguageConfig.LanguageConfigCache.GetSupportedLanguages | lokalise_translation_manager/utils/language_config.py:212-229 | the configured codes in order, from the cache |
| LanguageConfig.LanguageConfigCache.GetLanguageName | lokalise_translation_manager/utils/language_config.py:232-248 | the name under the code, or the code itself |
| LanguageConfig.LanguageConfigCache.GetLokaliseCode | lokalise_translation_manager/utils/language_config.py:251-266 | the Lokalise code of the short code, or the code itself |
| LanguageConfig.FallbackIsDefault | lokalise_translation_manager/utils/language_config.py:123-142 | a missing or unparsable file falls back to the built-in table |
| LanguageConfig.CachedConfigSticks | lokalise_translation_manager/utils/language_config.py:118-121 | once cached, a later read ignores a changed file |
| MergeTranslations.LoadMissingTranslations | lokalise_translation_manager/utils/merge_translations.py:88-115 | an absent or unreadable file gives the empty dictionary; otherwise the rows up to the first one without fields are read, the second field split on ", " |
| MergeTranslations.LoadRowsValid | lokalise_translation_manager/utils/merge_translations.py:109-112 | the dictionary read from the rows holds every key once |
| MergeTranslations.LoadRowsGet | lokalise_translation_manager/utils/merge_translations.py:109-112 | a key read from the file carries the codes of its last row |
| MergeTranslations.LoadValid | lokalise_translation_manager/utils/merge_translations.py:102-115 | whatever the file, the loaded dictionary holds every key once |
| MergeTranslations.Merge | lokalise_translation_manager/utils/merge_translations.py:117-135 | the merge is the iOS dictionary followed by the Android keys iOS lacks, in Android order |
| MergeTranslations.MergeKeepsIosFirst | lokalise_translation_manager/utils/merge_translations.py:131 | the iOS entries are a prefix of the merge, in their order |
| MergeTranslations.MergeEntries | lokalise_translation_manager/utils/merge_translations.py:131-135 | a key is merged exactly when either platform has it; an iOS key keeps its iOS codes, an Android-only key takes Android's |
| MergeTranslations.MergeValid | lokalise_translation_manager/utils/merge_translations.py:131-135 | merging keeps every key once |
| MergeTranslations.MergedCount | lokalise_translation_manager/utils/merge_translations.py:173-176 | the merged count plus the common-key count equals the iOS count plus the Android count |
| MergeTranslations.RunMerge | lokalise_translation_manager/utils/merge_translations.py:193-215 | two empty reports give no output; otherwise the written rows are those of the merge (or of the one non-empty report) and the summary holds the four counts |
| MergeTranslations.SummaryAddsUp | lokalise_translation_manager/utils/merge_translations.py:173-176 | in every run that writes a summary, merged keys = iOS keys + Android keys - common keys |
| MergeTranslations.FinalCsvReadsBack | lokalise_translation_manager/utils/merge_translations.py:137-156 | reading the written final CSV back gives the dictionary that was written, when every key has a non-empty list of codes without ", " |
| MergeTranslations.LoadRowsReadsBack | lokalise_translation_manager/utils/merge_translations.py:152-153 | every written row has a key field and the rows read back to the dictionary |
| MissingReport.ExcludedLocales | lokalise_translation_manager/scanner/ios_scanner.py:475-486 | without the file or the option nothing is excluded; otherwise a code is excluded exactly when it is a comma-separated part of the option, stripped |
| MissingReport.ExcludedListsCodes | lokalise_translation_manager/scanner/ios_scanner.py:482-483 | an option that lists plain codes separated by commas excludes exactly those codes |
| MissingReport.CheckLocale | lokalise_translation_manager/scanner/ios_scanner.py:582-589 | the key loop for one locale gives the report extended by this locale, per key it lacks |
| MissingReport.ForLocaleGet | lokalise_translation_manager/scanner/ios_scanner.py:584-589 | one locale appends its code once to the list of each checked key it lacks and leaves every other list alone; a key is in the report exactly when it was before or is lacking here |
| MissingReport.ForLocaleValid | lokalise_translation_manager/scanner/ios_scanner.py:587-589 | checking a locale keeps every key once |
| MissingReport.ForLocaleKeys | lokalise_translation_manager/scanner/ios_scanner.py:587-588 | checking a locale only adds keys |
| MissingReport.CsvRows | lokalise_translation_manager/scanner/ios_scanner.py:592-596 | the CSV report has one row per key, in report order, holding the key and its codes joined by ", " |
| MissingReport.CsvRowReadsBack | lokalise_translation_manager/scanner/ios_scanner.py:596 | a written row splits back on ", " into its codes when no code contains ", " |
| IosScanner.ParseLine | lokalise_translation_manager/scanner/ios_scanner.py:427-432 | a line yields a key and a value exactly when it contains '=' |
| IosScanner.ParseLineFields | lokalise_translation_manager/scanner/ios_scanner.py:428-432 | the key is taken from before the first '=' and the value from between the first and the second, so neither holds '='; the key has no surrounding quote |
| IosScanner.LoadStringsFile | lokalise_translation_manager/scanner/ios_scanner.py:419-437 | an unreadable file gives the empty dictionary; otherwise the dictionary of its lines |
| IosScanner.LoadLastWins | lokalise_translation_manager/scanner/ios_scanner.py:425-433 | for any line parser, the dictionary holds a key exactly when some line defines it, with the value of the last such line |
| IosScanner.LoadStringsLastWins | lokalise_translation_manager/scanner/ios_scanner.py:425-433 | a `Localizable.strings` dictionary holds a key exactly when some line defines it, and later lines override earlier ones |
| IosScanner.LocaleCodeHasNoDash | lokalise_translation_manager/scanner/ios_scanner.py:571 | the locale code of a directory is the part of its name before the first '-', so it holds no '-' |
| IosScanner.Gaps | lokalise_translation_manager/scanner/ios_scanner.py:584-586 | a key lacks a translation exactly when English has it and the locale either does not or holds only blanks |
| IosScanner.CompareTranslations | lokalise_translation_manager/scanner/ios_scanner.py:558-601 | the report is built from the English dictionary and every listed `.lproj` directory whose code is not excluded, in listing order |
| IosScanner.CompareLists | lokalise_translation_manager/scanner/ios_scanner.py:568-589 | for a used key, the reported list is the code of every checked directory lacking it, once per directory; a key is reported exactly when it is used and some checked directory lacks it |
| IosScanner.ReportedKeysAreUsedEnglishKeys | lokalise_translation_manager/scanner/ios_scanner.py:582-587 | every reported key is used in the sources and defined in English |
| IosScanner.ExcludedNeverRecorded | lokalise_translation_manager/scanner/ios_scanner.py:574-575 | no excluded code ever appears in the report |
| IosScanner.CompareValid | lokalise_translation_manager/scanner/ios_scanner.py:587-589 | the report holds every key once |
| AndroidScanner.LoadStringsFile | lokalise_translation_manager/scanner/android_scanner.py:460-476 | an unreadable file gives the empty dictionary; otherwise the dictionary of its matched pairs |
| AndroidScanner.LoadLastWins | lokalise_translation_manager/scanner/android_scanner.py:469-472 | a name is in the dictionary exactly when some pair names it, and its value is whether the last such pair's text is non-blank |
| AndroidScanner.LocaleDict | lokalise_translation_manager/scanner/android_scanner.py:524-534 | a directory's dictionary holds the names of both files; a name `Lokalizable.xml` defines takes its value from there, any other from `strings.xml`; with neither file it is empty |
| AndroidScanner.LoadAllStringsForLocale | lokalise_translation_manager/scanner/android_scanner.py:524-534 | the merged dictionary is the one of the two files, read in order with absent ones skipped |
| AndroidScanner.ValuesCode | lokalise_translation_manager/scanner/android_scanner.py:691 | the code of a `values-*` directory is the part between the first and second '-', so it holds no '-' |
| AndroidScanner.SupportedCodes | lokalise_translation_manager/scanner/android_scanner.py:681-692 | a code is supported exactly when some project `values-*` directory with a resource file has it |
| AndroidScanner.SupportedLanguages | lokalise_translation_manager/scanner/android_scanner.py:681-692 | the project walk collects exactly the supported codes |
| AndroidScanner.Gaps | lokalise_translation_manager/scanner/android_scanner.py:712-714 | a key lacks a translation exactly when English has it and the locale either does not or holds it blank |
| AndroidScanner.CompareTranslations | lokalise_translation_manager/scanner/android_scanner.py:670-729 | the report is built from the English `values` directory and every exported `values-*` directory whose code is supported and not excluded, in walk order |
| AndroidScanner.CompareLists | lokalise_translation_manager/scanner/android_scanner.py:695-717 | for a used key, the reported list is the code of every checked directory lacking it, once per directory; a key is reported exactly when it is used and some checked directory lacks it |
| AndroidScanner.RecordedCodes | lokalise_translation_manager/scanner/android_scanner.py:701-717 | a recorded code is always supported and never excluded, and only English keys are reported |
| AndroidScanner.CompareValid | lokalise_translation_manager/scanner/android_scanner.py:715-717 | the report holds every key once |
| Text.SplitJoin | lokalise_translation_manager/utils/merge_translations.py:111 | splitting a joined list of one or more parts, none of which holds the separator, gives the parts back (so `split(', ')` undoes `", ".join`) |
| Text.JoinSplit | lokalise_translation_manager/utils/merge_translations.py:153 | joining the parts of a split with the same separator gives the text back |
| MyPayments.FilterMembers | lokalise_translation_manager/plugins/myPayments.py:43-54 | for any test, a row is picked exactly when it is in the file and passes the test |
| MyPayments.WithoutIsFilter | lokalise_translation_manager/plugins/myPayments.py:103 | removing the rows of a list is filtering by a test when the list holds exactly the rows that fail it |
| MyPayments.FilterRows | lokalise_translation_manager/plugins/myPayments.py:43-54 | the row loop collects, in file order, the SoftPOS rows and the URL rows, and each counter is the length of its list |
| MyPayments.DeleteKeys | lokalise_translation_manager/plugins/myPayments.py:95-110 | the reported number of deleted keys is the SoftPOS count plus the URL count |
| MyPayments.FilterTranslations | lokalise_translation_manager/plugins/myPayments.py:24-64 | an unreadable file changes nothing; otherwise both side files get their rows and, unless the user keeps them, the file is rewritten without the rows of either list |
| MyPayments.SideFilesExact | lokalise_translation_manager/plugins/myPayments.py:44-54 | a row goes to the SoftPOS file exactly when one of its two texts mentions soft-pos in any case, and to the URL file exactly when one has `http://` or `https://` |
| MyPayments.RewrittenKeepsTheRest | lokalise_translation_manager/plugins/myPayments.py:102-108 | the rewritten file is exactly the rows neither test picks, in their original order |
| MyPayments.BothMatches | lokalise_translation_manager/plugins/myPayments.py:47-52 | the sample text matches both the soft-pos pattern and the URL pattern |
| MyPayments.RowInBothCountedTwice | lokalise_translation_manager/plugins/myPayments.py:102-110 | a row can be on both lists; it is then removed once but counted twice in the reported number |

## Left out

- Network clients: the OpenAI SDK call, the Lokalise GETs, PUTs and DELETE are oracles. `translate_text` sees one outcome per attempt, `fetch_*` a page per page number, `update_translations` a reply per request index. Headers, tokens and JSON decoding are not modelled.
- Dynamic plugin loading through `importlib`: each plugin is a record of which entry points its module defines and what each call does (returns `True`, returns something else, raises). A missing record is a module that fails to load. What an ACTION plugin's `run` or an EXTENSION plugin's `filter_translations` does to `translation_done.csv` is a separate oracle, `StoreEffects`, keyed by phase and plugin name, so a file carrying both markers may act differently in each phase; `PaymentsRewrite` is the bundled myPayments plugin's effect on a store whose lines all fill the header. Other files the plugins write are not modelled.
- Directory listings and walks, and the regular expressions that extract keys from Swift, Kotlin and Java sources or `<string>` pairs from XML: they are inputs (the list of directories in listing order, the used keys, the matched pairs).
- `csv.reader`/`csv.DictReader` quoting and `csv.Sniffer` delimiter detection: a CSV file is its rows of fields, or of column-to-cell maps.
- `DictReader` rows shorter than the header are not modelled. Their missing cells read as `None`. In `filter_translations` such a row raises a `TypeError` that the `except` at `plugins/myPayments.py:63` catches.
- Missing columns are not modelled, except for `key_id` in the translation queue. The records `MergedRow`, `EnEntry`, `IdRow`, `InRow`, `DoneRow` and `KeyRow` always carry every column their readers index. A file whose header lacks one of those columns makes the reader raise a `KeyError`. The members below say, one by one, what that does.
- Every CSV file is taken to decode as UTF-8. A file that does not raises a `UnicodeDecodeError` when it is read.
- Console output, colorama, prettytable, the spinner threads, `webbrowser.open` (`open_browser`), `show_summary`, `print_plugin_status` and elapsed-time reporting: they have no effect on the files or the results.
- Sleeps: retry back-offs and the upload pause after every sixth request are recorded as delays or request counts. The fixed 1/6-second pause between download pages and the mocks' simulated latency are dropped.
- Python set iteration order: `keys_to_check` in the scanners is a set, so the order in which its keys are tried is not fixed by the code. The model takes it as a duplicate-free sequence in the caller's order, and that order decides the row order of the missing-translation report.
- OpenAiMock.WordRun: the word characters are ASCII letters, digits and `_`. Python's `\w` on a `str` also matches every other Unicode letter and digit, so a language code with such a character ends the model's run early.
- OpenAiMock.SearchCode: inherits the ASCII reading of `\w` from `WordRun`; a code that starts with a non-ASCII letter is found by the code and not by the model.
- OpenAiMock.ReadTargetLanguage: inherits the same ASCII reading of `\w` through `SearchCode`.
- PluginManager.IsPluginEnabled: an entry's `enabled`, and `auto_discover_new_plugins`, are booleans or absent. `is_plugin_enabled` returns `plugins[name].get("enabled", True)` unconverted (`plugin_manager.py:182`), and `get_enabled_plugins_by_type` tests it for truth (line 328). A JSON value of another type (`0`, `""`, `null`, a non-empty string) would decide by its truthiness; the model does not represent such values.
- Unicode case folding beyond ASCII: `lower()` and `re.IGNORECASE` are modelled on ASCII letters (plus `ſ` for `s` in the myPayments pattern).
- `get_api_key`, `load_config` and `main` of the download step, and the environment and `config.ini` reading around each stage: the project id, the API key and the paths are fixed for a run.
- `load_plugin_config` writing the default configuration file, and `save_plugin_config`: the configuration is a value the caller reads and saves.
- `discover_action_plugins` and `discover_extension_plugins` (`core.py:153-257`) are one-line calls of `get_enabled_plugins_by_type`; `Core.RunTool` calls that directly.
- The download of the Lokalise export files (`lokalise_translation_manager/download/download_lokalise_files.py`): asynchronous export polling, ZIP extraction, a platform-specific timed prompt and a floating-point back-off. It is not part of this model.
- UploadTranslations.UpdateTranslations: every PUT is taken to return a reply, and a 200 reply to carry `translation.modified_at`. `translation_done.csv` is taken to carry the columns `key_name`, `key_id`, `languages`, `translation_id` and `translated`.
  - A record without one of those columns raises a `KeyError` at `upload_translations.py:221-225`. The `except` at line 300 catches it. The PUTs of the earlier records have been sent by then, and neither report is written.
  - The code reads `modified_at` without a check (`upload_translations.py:260`); a reply without it would raise a `KeyError` that ends the upload.
  - A `requests.put` that raises (a connection error or a timeout) is not modelled either. The `except` at `upload_translations.py:300` catches it and ends the upload before either report is written (lines 274-285).
- UploadTranslations.UploadWith: the splitting of a row and the stripping of its values are parameters, instantiated by `PartsOf` and `Strip`. The properties are proved for every choice of the two.
- TranslateRun.RunTranslation: follows the code where it differs from the tool's documentation.
  - The complete keys are read from `translation_done.csv` before the ACTION phase (`translate_with_openai.py:722`, the phase at line 729). The resume filter uses those keys, even when an ACTION plugin rewrote the file (`StoreEffects`). The next run sees the rewrite.
  - A `translation_done.csv` that is not UTF-8 raises a `UnicodeDecodeError`, which the `except` at line 389 does not catch, so the run ends. `StoreState.unreadable` covers only the `csv.Error` and `KeyError` that line catches. The queue file is likewise taken to decode.
  - A pending row without `key_id` raises a `KeyError` at the resume filter (`translate_with_openai.py:756`) and ends the run; it is not skipped.
  - The EXTENSION phase does not run when the input is missing, empty or complete (the returns at lines 744, 753 and 761).
  - Only a plugin whose `run()` returns exactly `True` bypasses translation.
  - Every validated row is appended, even one whose translations all failed, whatever the comment at lines 824-825 says.
- TranslateRun.ResumeIsIdempotent: the resume properties hold only under two conditions.
  - The output store is empty or its header is the queue's header followed by `translated` (this applies to `AfterPassCompletes`, `ResumeCompletes`, `ResumeTwice`, `ResumeIsIdempotent` and `SecondRunSendsNothing`). Records are appended by position under the queue's header, without a header when the store is not empty (`translate_with_openai.py:772-777`). They are read back under the store's own first line (lines 386-388). With any other header the appended records read back with the wrong cell as their `key_id`, and the next run translates them again. `MismatchedHeaderWritesAgain` proves this for a store whose header is `key_id` alone.
  - The ACTION plugins the run calls leave `translation_done.csv` alone. The EXTENSION plugins the run calls also leave it alone (`ResumeIsIdempotent`), or at least keep every complete key in it (`SecondRunSendsNothing`, which does not promise an unchanged store). The bundled myPayments plugin breaks both: unless the user presses ENTER within ten seconds, `delete_keys` rewrites the file without its SoftPOS and URL records (`plugins/myPayments.py:95-108`), so the next run translates them again. `PaymentsRewriteRetranslates` proves this for a record whose source text carries a URL. This happens on the bypass path too (line 734).
- TranslateRun.SecondRunSendsNothing: proved only under conditions. The ACTION plugins the run calls must leave `translation_done.csv` alone, and its EXTENSION plugins must keep every complete key complete. The store must be empty or carry the queue's header (see `TranslateRun.ResumeIsIdempotent`). A plugin that drops complete records, such as myPayments, makes the next run translate them again (`PaymentsRewriteRetranslates`). The lemma does not promise that the store is unchanged.
- TranslateRun.ResumeRun: the field names are taken to be the queue's header. `list(all_rows[0].keys())` differs from it only when the header repeats a name or the first record has surplus cells, and the model does not represent either case. If the first record has surplus cells, its `None` key is among the field names and `writerow` writes the surplus list as one cell. If only a later pending record has surplus cells, its `None` key is not a field name and `writerow` raises a `ValueError` (line 828). `main` catches it (line 870), so the run stops partway, after the earlier records were appended. Neither case is modelled.
- DownloadKeys.MergeKeysWithMissingTranslations: the Lokalise keys file is taken to carry `key_name` and `key_id`. Without one of them, `row['key_name']` or `row['key_id']` raises a `KeyError` at `download_lokalise_keys.py:406`. The `except` at line 417 catches it, and `merged_result.csv` is not written. The model's `None` result covers only a missing file.
- Normalize.ProcessNormalization: the two input files are taken to carry the columns the code indexes.
  - `merged_result.csv` without `key_id` raises a `KeyError` at `normalize_translations.py:129`. The English file without `key_id` raises one at line 139. The `except` at line 180 catches it. The `finally` then reads `merged_data` or `en_data`, which is unbound, so an `UnboundLocalError` escapes. This is the same crash as `Normalize.MissingInputCrashes`.
  - A matched record without `languages` raises a `KeyError` at line 150. An English record without `translation_id` or `translation` raises one at lines 160-161. The `except` catches it and no output file is written. The summary then reports the counts reached so far.
- PrepareTranslations.LoadTranslationIdLookup: `all_translation_ids.csv` is taken to carry `key_id`. Without it, `row['key_id']` raises a `KeyError` at `prepare_translations.py:100`. `main` catches it at line 187, and nothing is written.
- PrepareTranslations.EnrichAndSaveTranslations: the normalised file is taken to carry `key_id`, `languages` and `translation`. Without one of them, the code raises a `KeyError` at `prepare_translations.py:146`, 149 or 171. `main` catches it at line 187, before the output file is opened, so nothing is written.
- PrepareTranslations.Prepare: inherits the two assumptions above. A missing column ends the step at `prepare_translations.py:187`, like a missing file, with no output. The model's error outcome covers only the missing files.
- CleanupUnusedKeys.FilterLokaliseKeys: the Lokalise keys file is taken to carry `key_name` and `key_id`. Without one of them, `row['key_name']` or `row['key_id']` raises a `KeyError` at `cleanup_unused_keys.py:213`. Nothing catches it, so the cleanup stops before `ready_to_be_deleted.csv` is written.
- LanguageConfig.LanguageConfigCache.GetLanguageNames: a parsed `supported_languages.json` is taken to have the expected shape. The top level is an object, `languages` (when present) is an object, and each entry is an object. Other valid JSON is not modelled, and `LangEntry`/`Config` cannot represent it. `load_language_config` caches such a file as it is (`language_config.py:131-134`). A top level that is not an object, `languages` that is not an object, or an entry that is not an object then raises an uncaught `AttributeError` at line 167, 170, 171 or 172.
- LanguageConfig.LanguageConfigCache.GetLokaliseMappings: makes the same shape assumption. A wrong-shaped file raises an `AttributeError` at `language_config.py:202`, 205 or 206.
- LanguageConfig.LanguageConfigCache.GetSupportedLanguages: makes the same shape assumption for the top level and `languages`. A wrong-shaped file raises an `AttributeError` at `language_config.py:228` or 229. The entries themselves are not read here.
- LanguageConfig.LanguageConfigCache.GetLanguageName: inherits the shape assumption of `GetLanguageNames`, which it calls (`language_config.py:247`).
- LanguageConfig.LanguageConfigCache.GetLokaliseCode: inherits the shape assumption of `GetLokaliseMappings`, which it calls (`language_config.py:265`).
- PluginManager.LoadPluginConfig: a parsed `plugins_config.json` is taken to have the expected shape. The top level, `plugins`, `settings` and each entry are objects. Other valid JSON is not modelled, and `Config`/`Entry` cannot represent it. In the code such a file is returned as it is. Its readers then fail with an `AttributeError` or `TypeError` from `.get` or indexing (`plugin_manager.py:173-182`, 268-296), or they test membership in a list or string instead of a dictionary.
- TranslatePlugins.DiscoverPlugins: the translator lists plugin files by marker alone and does not consult `plugins_config.json`, exactly as the code does.
- MyPayments.FilterTranslations: the timed keep-or-delete prompt of `proceed_with_deletion` is the `keep` parameter.
  - On Windows the code calls `time.time()` without importing `time` (line 73); the `NameError` is caught at line 88, which then deletes. So on that path `keep` is always false.
  - `delete_keys` reads the file again, and the model takes it to hold the same rows.
  - The side files' header is not modelled.
- LokaliseMock.MockLokaliseAPI: the unused `translations` dictionary, the constant `branch` field of a reply and `time.sleep` are not modelled.
  - The keys' `description` and `platforms` are modelled (`KeyData`, `KeyInfo`).
  - Aliasing is not modelled: a `list_keys` reply shares the stored `platforms` list and `translations` list with the mock (`lokalise_mock.py:184`, `lokalise_mock.py:187`), so a caller that mutated a reply would change the store. The model's replies are values and copy the data.
- OpenAiMock.MockOpenAIAPI: `get_stats` is not modelled, and neither is `estimated_cost_usd`, a floating-point value. The `model`, `temperature` and `source_language` arguments do not affect the result and are left out, and so is the `created` time stamp.

## Findings

| source | as written | input that shows it | evidently intended | confidence | as-written member | corrected member |
|---|---|---|---|---|---|---|
| lokalise_translation_manager/utils/normalize_translations.py:183-190 | the `finally` block prints `len(merged_data)` and `len(en_data)`, which are unbound when an input file is missing: after the error message, the `finally` raises `UnboundLocalError`, which escapes `process_normalization` | `reports/merged_result.csv` absent, or present without a `key_id` column (the `KeyError` at line 129 takes the same path) | the summary with zero counts after the error message | not executed | Normalize.MissingInputCrashes | Normalize.SummaryAccountsForEveryKey |
