/**
 * The iOS scanner's comparison (`lokalise_translation_manager/scanner/ios_scanner.py`):
 * `Localizable.strings` files are read line by line into a key-to-value
 * dictionary, and every `.lproj` directory of the Lokalise export whose
 * locale code is not excluded is checked against English for the keys the
 * Swift sources use. The Swift key extraction, the directory listing and
 * the CSV file itself are inputs or left out: a directory is its name and
 * the lines of its `Localizable.strings` (None when the file cannot be read).
 */
module IosScanner {
  import opened Wrappers
  import opened Text
  import opened OrderedMaps
  import opened MissingReport

  /** The key and the value of one `"key" = "value";` line, or None for a line without '='. */
  function ParseLine(line: string): (r: Option<(string, string)>)
    ensures r.Some? <==> '=' in line
  {
    if '=' in line then
      var parts := Split(line, "=");
      SplitAtChar(line, '=');
      Some((KeyOf(parts[0]), ValueOf(parts[1])))
    else None
  }

  /** `part.strip().strip('"')`. */
  function KeyOf(part: string): string {
    StripChar(Strip(part), '"')
  }

  /** `part.strip().strip(';').strip().strip('"')`. */
  function ValueOf(part: string): string {
    StripChar(Strip(StripChar(Strip(part), ';')), '"')
  }

  lemma KeyOfLacks(part: string, c: char)
    requires c !in part
    ensures c !in KeyOf(part)
  {
    StripLacks(part, c, '"');
    StripLacks(Strip(part), c, '"');
  }

  lemma KeyUnquoted(part: string)
    ensures |KeyOf(part)| > 0 ==> KeyOf(part)[0] != '"' && KeyOf(part)[|KeyOf(part)| - 1] != '"'
  {
    StripCharEnds(Strip(part), '"');
  }

  lemma ValueOfLacks(part: string, c: char)
    requires c !in part
    ensures c !in ValueOf(part)
  {
    StripLacks(part, c, ';');
    StripLacks(Strip(part), c, ';');
    StripLacks(StripChar(Strip(part), ';'), c, '"');
    StripLacks(Strip(StripChar(Strip(part), ';')), c, '"');
  }

  /**
   * The key comes from before the first '=' and the value from between the
   * first and the second, so neither holds '='; the key is freed of its quotes.
   */
  lemma ParseLineFields(line: string)
    requires '=' in line
    ensures var r := ParseLine(line).value;
      '=' !in r.0 && '=' !in r.1 && (|r.0| > 0 ==> r.0[0] != '"' && r.0[|r.0| - 1] != '"')
  {
    var parts := Split(line, "=");
    SplitAtChar(line, '=');
    SplitPartsLack(line, '=');
    assert "=" == ['='];
    KeyOfLacks(parts[0], '=');
    KeyUnquoted(parts[0]);
    ValueOfLacks(parts[1], '=');
  }

  /** The dictionary `parse` builds from `lines`, one line after the other; a later line for a key wins. */
  function LoadWith(lines: seq<string>, parse: string -> Option<(string, string)>): map<string, string>
  {
    if |lines| == 0 then map[]
    else
      var acc := LoadWith(lines[..|lines| - 1], parse);
      match parse(lines[|lines| - 1])
      case Some((k, v)) => acc[k := v]
      case None => acc
  }

  function LoadStrings(lines: seq<string>): map<string, string> {
    LoadWith(lines, ParseLine)
  }

  /** `load_strings_file`: an unreadable file gives the empty dictionary. */
  method LoadStringsFile(file: Option<seq<string>>) returns (strings: map<string, string>)
    ensures strings == Dict(file)
  {
    strings := map[];
    if file.None? { return; }
    var lines := file.value;
    for i := 0 to |lines|
      invariant strings == LoadWith(lines[..i], ParseLine)
    {
      assert lines[..i + 1][..i] == lines[..i];
      var parsed := ParseLine(lines[i]);
      if parsed.Some? {
        strings := strings[parsed.value.0 := parsed.value.1];
      }
    }
    assert lines[..|lines|] == lines;
  }

  /** Line `line` holds an entry for `k`. */
  predicate Defines(parse: string -> Option<(string, string)>, line: string, k: string) {
    parse(line).Some? && parse(line).value.0 == k
  }

  /** Line `i` is the last line that defines `k`. */
  predicate LastDefining(parse: string -> Option<(string, string)>, lines: seq<string>, i: int, k: string) {
    0 <= i < |lines| && Defines(parse, lines[i], k)
    && forall j :: i < j < |lines| ==> !Defines(parse, lines[j], k)
  }

  /**
   * The dictionary holds a key exactly when some line defines it, and its
   * value is the one the last such line gives.
   */
  lemma LoadLastWins(lines: seq<string>, parse: string -> Option<(string, string)>, k: string)
    ensures k in LoadWith(lines, parse) <==> exists i :: 0 <= i < |lines| && Defines(parse, lines[i], k)
    ensures forall i :: LastDefining(parse, lines, i, k) ==> LoadWith(lines, parse)[k] == parse(lines[i]).value.1
  {
    LoadNames(lines, parse, k);
    forall i | LastDefining(parse, lines, i, k) ensures LoadWith(lines, parse)[k] == parse(lines[i]).value.1 {
      LoadLast(lines, parse, k, i);
    }
  }

  lemma {:induction false} LoadNames(lines: seq<string>, parse: string -> Option<(string, string)>, k: string)
    ensures k in LoadWith(lines, parse) <==> exists i :: 0 <= i < |lines| && Defines(parse, lines[i], k)
  {
    if |lines| > 0 {
      var init := lines[..|lines| - 1];
      LoadNames(init, parse, k);
      if exists i :: 0 <= i < |init| && Defines(parse, init[i], k) {
        var i :| 0 <= i < |init| && Defines(parse, init[i], k);
        assert lines[i] == init[i];
      }
      if exists i :: 0 <= i < |lines| && Defines(parse, lines[i], k) {
        var i :| 0 <= i < |lines| && Defines(parse, lines[i], k);
        if i < |init| { assert init[i] == lines[i]; }
      }
    }
  }

  lemma {:induction false} LoadLast(lines: seq<string>, parse: string -> Option<(string, string)>, k: string, i: int)
    requires LastDefining(parse, lines, i, k)
    ensures k in LoadWith(lines, parse) && LoadWith(lines, parse)[k] == parse(lines[i]).value.1
  {
    var last := |lines| - 1;
    if i < last {
      var init := lines[..last];
      assert !Defines(parse, lines[last], k);
      assert forall j :: i <= j < last ==> init[j] == lines[j];
      LoadLast(init, parse, k, i);
    }
  }

  /** `load_strings_file` in terms of the file's lines. */
  lemma LoadStringsLastWins(lines: seq<string>, k: string)
    ensures k in LoadStrings(lines) <==> exists i :: 0 <= i < |lines| && Defines(ParseLine, lines[i], k)
    ensures forall i :: LastDefining(ParseLine, lines, i, k) ==> LoadStrings(lines)[k] == ParseLine(lines[i]).value.1
  {
    LoadLastWins(lines, ParseLine, k);
  }

  /** A `.lproj` directory of the export: its name and its `Localizable.strings` lines. */
  datatype LprojDir = LprojDir(name: string, strings: Option<seq<string>>)

  /** `language_dir.replace('.lproj', '').split('-')[0]`. */
  function LocaleCode(dirName: string): string {
    Split(ReplaceAll(dirName, ".lproj", ""), "-")[0]
  }

  /** The code is the part before the first '-'. */
  lemma LocaleCodeHasNoDash(dirName: string)
    ensures '-' !in LocaleCode(dirName)
  {
    SplitPartsLack(ReplaceAll(dirName, ".lproj", ""), '-');
    assert "-" == ['-'];
  }

  /** The English keys that a locale's dictionary lacks or holds blank. */
  function Gaps(en: map<string, string>, lang: map<string, string>): (r: set<string>)
    ensures forall k :: k in r <==> k in en && (k !in lang || Strip(lang[k]) == "")
  {
    set k | k in en && (k !in lang || Strip(lang[k]) == "")
  }

  /** The dictionary of a `Localizable.strings` file. */
  function Dict(file: Option<seq<string>>): map<string, string> {
    if file.None? then map[] else LoadStrings(file.value)
  }

  /** The directories the comparison loop checks: `.lproj` ones with a code not excluded. */
  predicate Checked(d: LprojDir, excluded: set<string>) {
    EndsWith(d.name, ".lproj") && LocaleCode(d.name) !in excluded
  }


  /** The report after the first |dirs| directories of the listing. */
  function Compare(en: map<string, string>, dirs: seq<LprojDir>, keys: seq<string>, excluded: set<string>): Report
  {
    if |dirs| == 0 then []
    else
      var acc := Compare(en, dirs[..|dirs| - 1], keys, excluded);
      var d := dirs[|dirs| - 1];
      if Checked(d, excluded) then ForLocale(acc, keys, Gaps(en, Dict(d.strings)), LocaleCode(d.name))
      else acc
  }

  /**
   * `compare_translations`: English comes from `en.lproj`, every listed
   * directory is checked in listing order, and the report is returned.
   */
  method CompareTranslations(enStrings: Option<seq<string>>, dirs: seq<LprojDir>, keys: seq<string>, ini: ExcludedIni)
    returns (missing: Report)
    ensures missing == Compare(Dict(enStrings), dirs, keys, ExcludedLocales(ini))
  {
    var excluded := ExcludedLocales(ini);
    var en := LoadStringsFile(enStrings);
    missing := [];
    for i := 0 to |dirs|
      invariant missing == Compare(en, dirs[..i], keys, excluded)
    {
      assert dirs[..i + 1][..i] == dirs[..i];
      var d := dirs[i];
      if EndsWith(d.name, ".lproj") {
        var code := LocaleCode(d.name);
        if code !in excluded {
          var lang := LoadStringsFile(d.strings);
          missing := CheckLocale(missing, keys, Gaps(en, lang), code);
        }
      }
    }
    assert dirs[..|dirs|] == dirs;
  }

  /** The codes recorded for key `k`: one per checked directory lacking it, in listing order. */
  function MissingCodes(en: map<string, string>, dirs: seq<LprojDir>, k: string, excluded: set<string>): seq<string>
  {
    if |dirs| == 0 then []
    else
      var d := dirs[|dirs| - 1];
      MissingCodes(en, dirs[..|dirs| - 1], k, excluded)
      + (if Checked(d, excluded) && k in Gaps(en, Dict(d.strings)) then [LocaleCode(d.name)] else [])
  }

  /**
   * The list reported for a key used in the sources is the code of every
   * checked directory lacking it, once per directory (so `de-DE.lproj` and
   * `de-AT.lproj` give "de" twice); keys not used are never reported.
   */
  lemma {:induction false} CompareLists(en: map<string, string>, dirs: seq<LprojDir>, keys: seq<string>, excluded: set<string>, k: string)
    requires Distinct(keys)
    ensures GetOr(Compare(en, dirs, keys, excluded), k, []) == (if k in keys then MissingCodes(en, dirs, k, excluded) else [])
    ensures HasKey(Compare(en, dirs, keys, excluded), k) <==> k in keys && MissingCodes(en, dirs, k, excluded) != []
  {
    if |dirs| > 0 {
      var init := dirs[..|dirs| - 1];
      var d := dirs[|dirs| - 1];
      CompareLists(en, init, keys, excluded, k);
      var acc := Compare(en, init, keys, excluded);
      if Checked(d, excluded) {
        ForLocaleGet(acc, keys, Gaps(en, Dict(d.strings)), LocaleCode(d.name), k);
      } else {
        assert MissingCodes(en, dirs, k, excluded) == MissingCodes(en, init, k, excluded) + [];
      }
    }
  }

  /** Every reported key is a used key that English has. */
  lemma ReportedKeysAreUsedEnglishKeys(en: map<string, string>, dirs: seq<LprojDir>, keys: seq<string>, excluded: set<string>, k: string)
    requires Distinct(keys)
    requires HasKey(Compare(en, dirs, keys, excluded), k)
    ensures k in keys && k in en
  {
    CompareLists(en, dirs, keys, excluded, k);
    MissingCodesAreGaps(en, dirs, k, excluded);
  }

  lemma {:induction false} MissingCodesAreGaps(en: map<string, string>, dirs: seq<LprojDir>, k: string, excluded: set<string>)
    ensures MissingCodes(en, dirs, k, excluded) != [] ==> k in en
  {
    if |dirs| > 0 {
      MissingCodesAreGaps(en, dirs[..|dirs| - 1], k, excluded);
    }
  }

  /** An excluded code is never recorded. */
  lemma {:induction false} ExcludedNeverRecorded(en: map<string, string>, dirs: seq<LprojDir>, k: string, excluded: set<string>)
    ensures forall c :: c in MissingCodes(en, dirs, k, excluded) ==> c !in excluded
  {
    if |dirs| > 0 {
      ExcludedNeverRecorded(en, dirs[..|dirs| - 1], k, excluded);
    }
  }

  /** The report keeps every key once. */
  lemma {:induction false} CompareValid(en: map<string, string>, dirs: seq<LprojDir>, keys: seq<string>, excluded: set<string>)
    ensures Valid(Compare(en, dirs, keys, excluded))
  {
    if |dirs| > 0 {
      CompareValid(en, dirs[..|dirs| - 1], keys, excluded);
      var d := dirs[|dirs| - 1];
      if Checked(d, excluded) {
        ForLocaleValid(Compare(en, dirs[..|dirs| - 1], keys, excluded), keys, Gaps(en, Dict(d.strings)), LocaleCode(d.name));
      }
    }
  }
}
