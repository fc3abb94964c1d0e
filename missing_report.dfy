/**
 * What the iOS and the Android scanner share: the excluded-locales setting
 * read from `config/excluded_locales.ini`, and the report of missing
 * translations, a dictionary from key to the locale codes lacking it, in
 * the order the keys were first found missing, written one CSV row per key
 * with the codes joined by ", ".
 */
module MissingReport {
  import opened Wrappers
  import opened Text
  import opened OrderedMaps

  /**
   * `config/excluded_locales.ini` as the scanners see it: absent, or present
   * with the `excluded_locales` option of its `[EXCLUDED]` section (None when
   * the section or the option is missing).
   */
  datatype ExcludedIni = NoIniFile | IniFile(excludedLocales: Option<string>)

  /** `load_excluded_locales`: the comma-separated codes, each stripped. */
  function ExcludedLocales(ini: ExcludedIni): (r: set<string>)
    ensures (ini.NoIniFile? || ini.excludedLocales.None?) ==> r == {}
    ensures ini.IniFile? && ini.excludedLocales.Some? ==>
      forall c :: c in r <==> exists p :: p in Split(ini.excludedLocales.value, ",") && Strip(p) == c
  {
    match ini
    case NoIniFile => {}
    case IniFile(None) => {}
    case IniFile(Some(v)) => set p | p in Split(v, ",") :: Strip(p)
  }

  /** Codes written the way the option lists them: no commas, no surrounding blanks. */
  predicate PlainCode(c: string) {
    ',' !in c && Strip(c) == c
  }

  /** An option listing codes separated by commas excludes exactly those codes. */
  lemma ExcludedListsCodes(codes: seq<string>)
    requires |codes| >= 1
    requires forall i :: 0 <= i < |codes| ==> PlainCode(codes[i])
    ensures ExcludedLocales(IniFile(Some(Join(codes, ",")))) == set c | c in codes
  {
    forall i | 0 <= i < |codes| ensures SepFree(codes[i], ",") {
      CharSepFree(codes[i], ',');
    }
    SplitJoin(codes, ",");
  }

  /** The missing-translations dictionary: key to locale codes, in insertion order. */
  type Report = OMap<string, seq<string>>

  /** `missing_translations.setdefault(key, []).append(code)`. */
  function Record(m: Report, key: string, code: string): Report {
    Put(m, key, GetOr(m, key, []) + [code])
  }

  /**
   * The check of one locale: every key of `keys` (in iteration order) that
   * is in `gaps`, the English keys this locale lacks, gets `code` appended.
   */
  function ForLocale(m: Report, keys: seq<string>, gaps: set<string>, code: string): Report
  {
    if |keys| == 0 then m
    else
      var acc := ForLocale(m, keys[..|keys| - 1], gaps, code);
      var key := keys[|keys| - 1];
      if key in gaps then Record(acc, key, code) else acc
  }

  /** The `for key in keys_to_check` loop of `compare_translations`. */
  method CheckLocale(m: Report, keys: seq<string>, gaps: set<string>, code: string) returns (r: Report)
    ensures r == ForLocale(m, keys, gaps, code)
  {
    r := m;
    for i := 0 to |keys|
      invariant r == ForLocale(m, keys[..i], gaps, code)
    {
      assert keys[..i + 1][..i] == keys[..i];
      if keys[i] in gaps {
        r := Record(r, keys[i], code);
      }
    }
    assert keys[..|keys|] == keys;
  }

  predicate Distinct(keys: seq<string>) {
    forall i, j :: 0 <= i < j < |keys| ==> keys[i] != keys[j]
  }

  /**
   * Checking one locale appends its code once to the list of every key it
   * lacks and leaves every other key's list alone; a key enters the report
   * exactly when it was already there or is lacking here.
   */
  lemma {:induction false} ForLocaleGet(m: Report, keys: seq<string>, gaps: set<string>, code: string, k: string)
    requires Distinct(keys)
    ensures GetOr(ForLocale(m, keys, gaps, code), k, []) ==
      GetOr(m, k, []) + (if k in keys && k in gaps then [code] else [])
    ensures HasKey(ForLocale(m, keys, gaps, code), k) <==> HasKey(m, k) || (k in keys && k in gaps)
  {
    if |keys| == 0 {
      assert GetOr(m, k, []) + [] == GetOr(m, k, []);
    } else {
      var init := keys[..|keys| - 1];
      var key := keys[|keys| - 1];
      assert keys == init + [key];
      ForLocaleGet(m, init, gaps, code, k);
      assert Distinct(init);
      if k == key {
        assert k !in init;
        if key !in gaps {
          assert GetOr(m, k, []) + [] == GetOr(m, k, []);
        }
      } else {
        assert k in keys <==> k in init;
      }
    }
  }

  /** Checking one locale keeps every key once. */
  lemma {:induction false} ForLocaleValid(m: Report, keys: seq<string>, gaps: set<string>, code: string)
    requires Valid(m)
    ensures Valid(ForLocale(m, keys, gaps, code))
  {
    if |keys| > 0 {
      ForLocaleValid(m, keys[..|keys| - 1], gaps, code);
    }
  }

  /** Checking one locale only adds keys, at the end. */
  lemma {:induction false} ForLocaleKeys(m: Report, keys: seq<string>, gaps: set<string>, code: string)
    ensures Keys(m) <= Keys(ForLocale(m, keys, gaps, code))
  {
    if |keys| > 0 {
      ForLocaleKeys(m, keys[..|keys| - 1], gaps, code);
    }
  }

  /** The CSV report: `[key, ", ".join(languages)]` per key, in dictionary order. */
  function CsvRows(m: Report): (rows: seq<seq<string>>)
    ensures |rows| == |m|
    ensures forall i :: 0 <= i < |m| ==> rows[i] == [m[i].0, Join(m[i].1, ", ")]
  {
    seq(|m|, i requires 0 <= i < |m| => [m[i].0, Join(m[i].1, ", ")])
  }

  /** Reading a report row back with `split(', ')` gives the codes, when none contains ", ". */
  lemma CsvRowReadsBack(m: Report, i: nat)
    requires i < |m| && |m[i].1| >= 1
    requires forall j :: 0 <= j < |m[i].1| ==> !Contains(m[i].1[j], ", ")
    ensures Split(CsvRows(m)[i][1], ", ") == m[i].1
  {
    var codes := m[i].1;
    forall j | 0 <= j < |codes| ensures SepFree(codes[j], ", ") {
      CommaSpaceSepFree(codes[j]);
    }
    SplitJoin(codes, ", ");
  }
}
