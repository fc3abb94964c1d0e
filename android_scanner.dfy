/**
 * The Android scanner's comparison (`lokalise_translation_manager/scanner/android_scanner.py`):
 * each `strings.xml` / `Lokalizable.xml` becomes a dictionary from string
 * name to "has a value", the two files of a `values-*` directory are merged
 * with the second winning, and every `values-*` directory of the Lokalise
 * export whose code is used by the project and not excluded is checked
 * against English for the keys the Kotlin/Java sources use. The regular
 * expression that pulls the `<string name="...">...</string>` pairs out of
 * a file and the directory walks are inputs: a file is its list of matched
 * pairs, a walk the directories it reaches, in walk order.
 */
module AndroidScanner {
  import opened Wrappers
  import opened Text
  import opened OrderedMaps
  import opened MissingReport

  /** A resource file that exists: unreadable, or the (name, text) pairs the pattern matched. */
  datatype XmlFile = Unreadable | Matched(pairs: seq<(string, string)>)

  /** A directory reached by a walk: its name and its two resource files (None when absent). */
  datatype ValuesDir = ValuesDir(name: string, stringsXml: Option<XmlFile>, lokalizableXml: Option<XmlFile>)

  /** The dictionary built from the pairs, with `filled` deciding each value; a later pair wins. */
  function LoadWith(pairs: seq<(string, string)>, filled: string -> bool): map<string, bool>
  {
    if |pairs| == 0 then map[]
    else
      var p := pairs[|pairs| - 1];
      LoadWith(pairs[..|pairs| - 1], filled)[p.0 := filled(p.1)]
  }

  /** `value.strip() != ""`. */
  predicate HasValue(text: string) {
    Strip(text) != ""
  }

  /** The dictionary of one existing file; an unreadable file gives the empty one. */
  function FileDict(f: XmlFile): map<string, bool> {
    match f
    case Unreadable => map[]
    case Matched(pairs) => LoadWith(pairs, HasValue)
  }

  /** `load_strings_file`. */
  method LoadStringsFile(f: XmlFile) returns (strings: map<string, bool>)
    ensures strings == FileDict(f)
  {
    strings := map[];
    if f.Unreadable? { return; }
    var pairs := f.pairs;
    for i := 0 to |pairs|
      invariant strings == LoadWith(pairs[..i], HasValue)
    {
      assert pairs[..i + 1][..i] == pairs[..i];
      var (key, value) := pairs[i];
      strings := strings[key := HasValue(value)];
    }
    assert pairs[..|pairs|] == pairs;
  }

  /** Pair `i` is the last one naming `k`. */
  predicate LastNaming(pairs: seq<(string, string)>, i: int, k: string) {
    0 <= i < |pairs| && pairs[i].0 == k && forall j :: i < j < |pairs| ==> pairs[j].0 != k
  }

  /**
   * A name is in the dictionary exactly when some pair names it, and its
   * value is whether the last such pair's text is non-blank.
   */
  lemma LoadLastWins(pairs: seq<(string, string)>, filled: string -> bool, k: string)
    ensures k in LoadWith(pairs, filled) <==> exists i :: 0 <= i < |pairs| && pairs[i].0 == k
    ensures forall i :: LastNaming(pairs, i, k) ==> LoadWith(pairs, filled)[k] == filled(pairs[i].1)
  {
    LoadNames(pairs, filled, k);
    forall i | LastNaming(pairs, i, k) ensures LoadWith(pairs, filled)[k] == filled(pairs[i].1) {
      LoadLast(pairs, filled, k, i);
    }
  }

  lemma {:induction false} LoadNames(pairs: seq<(string, string)>, filled: string -> bool, k: string)
    ensures k in LoadWith(pairs, filled) <==> exists i :: 0 <= i < |pairs| && pairs[i].0 == k
  {
    if |pairs| > 0 {
      var init := pairs[..|pairs| - 1];
      LoadNames(init, filled, k);
      if exists i :: 0 <= i < |init| && init[i].0 == k {
        var i :| 0 <= i < |init| && init[i].0 == k;
        assert pairs[i] == init[i];
      }
      if exists i :: 0 <= i < |pairs| && pairs[i].0 == k {
        var i :| 0 <= i < |pairs| && pairs[i].0 == k;
        if i < |init| { assert init[i] == pairs[i]; }
      }
    }
  }

  lemma {:induction false} LoadLast(pairs: seq<(string, string)>, filled: string -> bool, k: string, i: int)
    requires LastNaming(pairs, i, k)
    ensures k in LoadWith(pairs, filled) && LoadWith(pairs, filled)[k] == filled(pairs[i].1)
  {
    var last := |pairs| - 1;
    if i < last {
      var init := pairs[..last];
      assert pairs[last].0 != k;
      assert forall j :: i <= j < last ==> init[j] == pairs[j];
      LoadLast(init, filled, k, i);
    }
  }

  /** What a file that may be absent contributes: nothing when it is absent. */
  function Contribution(f: Option<XmlFile>): map<string, bool> {
    if f.None? then map[] else FileDict(f.value)
  }

  /**
   * The merged dictionary of a directory: `strings.xml`, then
   * `Lokalizable.xml` over it. A name `Lokalizable.xml` defines takes its
   * value from there, any other name from `strings.xml`; absent files add
   * nothing.
   */
  function LocaleDict(d: ValuesDir): (r: map<string, bool>)
    ensures forall k :: k in r <==> k in Contribution(d.stringsXml) || k in Contribution(d.lokalizableXml)
    ensures forall k :: k in Contribution(d.lokalizableXml) ==> r[k] == Contribution(d.lokalizableXml)[k]
    ensures forall k :: k !in Contribution(d.lokalizableXml) && k in Contribution(d.stringsXml) ==>
      r[k] == Contribution(d.stringsXml)[k]
    ensures d.stringsXml.None? && d.lokalizableXml.None? ==> r == map[]
  {
    Contribution(d.stringsXml) + Contribution(d.lokalizableXml)
  }

  /** `load_all_strings_for_locale`: the two file names in order, absent ones skipped. */
  method LoadAllStringsForLocale(d: ValuesDir) returns (merged: map<string, bool>)
    ensures merged == LocaleDict(d)
  {
    merged := map[];
    var files := [d.stringsXml, d.lokalizableXml];
    for i := 0 to |files|
      invariant merged == if i == 0 then map[] else if i == 1 then Contribution(files[0])
        else Contribution(files[0]) + Contribution(files[1])
    {
      if files[i].Some? {
        var fromFile := LoadStringsFile(files[i].value);
        merged := merged + fromFile;
      }
    }
  }

  /** Directories named `values-…`. */
  predicate IsValuesDir(name: string) {
    StartsWith(name, "values-")
  }

  /** `dir_name.split('-')[1]`: the part between the first and the second '-'. */
  function ValuesCode(name: string): (code: string)
    requires IsValuesDir(name)
    ensures '-' !in code
  {
    assert name[6] == '-';
    SplitAtChar(name, '-');
    SplitPartsLack(name, '-');
    Split(name, "-")[1]
  }

  /** A project directory that makes its code supported. */
  predicate Supports(d: ValuesDir) {
    IsValuesDir(d.name) && (d.stringsXml.Some? || d.lokalizableXml.Some?)
  }

  /** The supported codes found among the first |dirs| directories of the project walk. */
  function Supported(dirs: seq<ValuesDir>): set<string> {
    if |dirs| == 0 then {}
    else
      var d := dirs[|dirs| - 1];
      Supported(dirs[..|dirs| - 1]) + (if Supports(d) then {ValuesCode(d.name)} else {})
  }

  /** A code is supported exactly when a project `values-*` directory with a resource file has it. */
  lemma {:induction false} SupportedCodes(dirs: seq<ValuesDir>, c: string)
    ensures c in Supported(dirs) <==> exists i :: 0 <= i < |dirs| && Supports(dirs[i]) && ValuesCode(dirs[i].name) == c
  {
    if |dirs| > 0 {
      var init := dirs[..|dirs| - 1];
      SupportedCodes(init, c);
      assert forall i :: 0 <= i < |init| ==> dirs[i] == init[i];
      if c in Supported(init) {
        var i :| 0 <= i < |init| && Supports(init[i]) && ValuesCode(init[i].name) == c;
        assert Supports(dirs[i]);
      }
    }
  }

  /** The English keys a locale's dictionary lacks or holds without a value. */
  function Gaps(en: map<string, bool>, lang: map<string, bool>): (r: set<string>)
    ensures forall k :: k in r <==> k in en && (k !in lang || !lang[k])
  {
    set k | k in en && (k !in lang || !lang[k])
  }

  /** The export directories the comparison checks. */
  predicate Checked(d: ValuesDir, excluded: set<string>, supported: set<string>) {
    IsValuesDir(d.name) && ValuesCode(d.name) !in excluded && ValuesCode(d.name) in supported
  }

  /** The report after the first |dirs| directories of the export walk. */
  function Compare(en: map<string, bool>, dirs: seq<ValuesDir>, keys: seq<string>,
                   excluded: set<string>, supported: set<string>): Report
  {
    if |dirs| == 0 then []
    else
      var acc := Compare(en, dirs[..|dirs| - 1], keys, excluded, supported);
      var d := dirs[|dirs| - 1];
      if Checked(d, excluded, supported) then ForLocale(acc, keys, Gaps(en, LocaleDict(d)), ValuesCode(d.name))
      else acc
  }

  /** The project walk of `compare_translations`, collecting the supported codes. */
  method SupportedLanguages(project: seq<ValuesDir>) returns (supported: set<string>)
    ensures supported == Supported(project)
  {
    supported := {};
    for i := 0 to |project|
      invariant supported == Supported(project[..i])
    {
      assert project[..i + 1][..i] == project[..i];
      var d := project[i];
      if IsValuesDir(d.name) {
        var hasStrings := d.stringsXml.Some?;
        var hasLokalizable := d.lokalizableXml.Some?;
        if hasStrings || hasLokalizable {
          supported := supported + {ValuesCode(d.name)};
        }
      }
    }
    assert project[..|project|] == project;
  }

  /**
   * `compare_translations`: English is the export's `values` directory,
   * the project walk gives the supported codes, and the export walk is
   * checked directory by directory.
   */
  method CompareTranslations(enDir: ValuesDir, exported: seq<ValuesDir>, project: seq<ValuesDir>,
                             keys: seq<string>, ini: ExcludedIni)
    returns (missing: Report)
    ensures missing == Compare(LocaleDict(enDir), exported, keys, ExcludedLocales(ini), Supported(project))
  {
    var excluded := ExcludedLocales(ini);
    var en := LoadAllStringsForLocale(enDir);
    var supported := SupportedLanguages(project);
    missing := [];
    for i := 0 to |exported|
      invariant missing == Compare(en, exported[..i], keys, excluded, supported)
    {
      assert exported[..i + 1][..i] == exported[..i];
      var d := exported[i];
      if IsValuesDir(d.name) {
        var code := ValuesCode(d.name);
        if code !in excluded && code in supported {
          var lang := LoadAllStringsForLocale(d);
          missing := CheckLocale(missing, keys, Gaps(en, lang), code);
        }
      }
    }
    assert exported[..|exported|] == exported;
  }

  /** The codes recorded for key `k`: one per checked directory lacking it, in walk order. */
  function MissingCodes(en: map<string, bool>, dirs: seq<ValuesDir>, k: string,
                        excluded: set<string>, supported: set<string>): seq<string>
  {
    if |dirs| == 0 then []
    else
      var d := dirs[|dirs| - 1];
      MissingCodes(en, dirs[..|dirs| - 1], k, excluded, supported)
      + (if Checked(d, excluded, supported) && k in Gaps(en, LocaleDict(d)) then [ValuesCode(d.name)] else [])
  }

  /**
   * The list reported for a used key is the code of every checked
   * directory lacking it or holding it blank, once per directory; unused
   * keys are never reported.
   */
  lemma {:induction false} CompareLists(en: map<string, bool>, dirs: seq<ValuesDir>, keys: seq<string>,
                                        excluded: set<string>, supported: set<string>, k: string)
    requires Distinct(keys)
    ensures GetOr(Compare(en, dirs, keys, excluded, supported), k, []) ==
      (if k in keys then MissingCodes(en, dirs, k, excluded, supported) else [])
    ensures HasKey(Compare(en, dirs, keys, excluded, supported), k) <==>
      k in keys && MissingCodes(en, dirs, k, excluded, supported) != []
  {
    if |dirs| > 0 {
      var init := dirs[..|dirs| - 1];
      var d := dirs[|dirs| - 1];
      CompareLists(en, init, keys, excluded, supported, k);
      var acc := Compare(en, init, keys, excluded, supported);
      if Checked(d, excluded, supported) {
        ForLocaleGet(acc, keys, Gaps(en, LocaleDict(d)), ValuesCode(d.name), k);
      } else {
        assert MissingCodes(en, dirs, k, excluded, supported) == MissingCodes(en, init, k, excluded, supported) + [];
      }
    }
  }

  /** A code is recorded only when it is supported and not excluded, and only for English keys. */
  lemma {:induction false} RecordedCodes(en: map<string, bool>, dirs: seq<ValuesDir>, k: string,
                                         excluded: set<string>, supported: set<string>)
    ensures forall c :: c in MissingCodes(en, dirs, k, excluded, supported) ==> c !in excluded && c in supported
    ensures MissingCodes(en, dirs, k, excluded, supported) != [] ==> k in en
  {
    if |dirs| > 0 {
      RecordedCodes(en, dirs[..|dirs| - 1], k, excluded, supported);
    }
  }

  /** The report keeps every key once. */
  lemma {:induction false} CompareValid(en: map<string, bool>, dirs: seq<ValuesDir>, keys: seq<string>,
                                        excluded: set<string>, supported: set<string>)
    ensures Valid(Compare(en, dirs, keys, excluded, supported))
  {
    if |dirs| > 0 {
      var init := dirs[..|dirs| - 1];
      var d := dirs[|dirs| - 1];
      CompareValid(en, init, keys, excluded, supported);
      if Checked(d, excluded, supported) {
        ForLocaleValid(Compare(en, init, keys, excluded, supported), keys, Gaps(en, LocaleDict(d)), ValuesCode(d.name));
      }
    }
  }
}
