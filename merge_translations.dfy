/**
 * The merge of the two scanner reports (`lokalise_translation_manager/utils/merge_translations.py`):
 * both missing-translation CSV files are read back into key-to-codes
 * dictionaries, merged with iOS taking precedence, written to the final
 * report, and summarised as four counts. The delimiter detection and the
 * CSV quoting rules are not modelled: a file is its rows of fields.
 */
module MergeTranslations {
  import opened Wrappers
  import opened Text
  import opened OrderedMaps
  import opened MissingReport
  import opened Csv

  /** A report file on disk: absent, impossible to open, or its rows. */
  datatype ReportFile = NoReportFile | Unreadable | ReportRows(rows: seq<seq<string>>)

  /** The codes of one row: the second field split on ", ", or none without a second field. */
  function RowCodes(row: seq<string>): seq<string> {
    if |row| > 1 then Split(row[1], ", ") else []
  }

  /** The dictionary read from rows that all have a first field; a later row for a key wins. */
  function LoadRows(rows: seq<seq<string>>): Report
    requires forall i :: 0 <= i < |rows| ==> |rows[i]| > 0
  {
    if |rows| == 0 then []
    else
      var row := rows[|rows| - 1];
      Put(LoadRows(rows[..|rows| - 1]), row[0], RowCodes(row))
  }

  /**
   * `load_missing_translations`: an absent or unreadable file gives the
   * empty dictionary; a row without fields raises, and what was read
   * before it is returned.
   */
  function LoadMissing(file: ReportFile): Report {
    match file
    case ReportRows(rows) => LoadRows(rows[..FirstEmpty(rows)])
    case _ => []
  }

  method LoadMissingTranslations(file: ReportFile) returns (translations: Report)
    ensures translations == LoadMissing(file)
  {
    translations := [];
    if !file.ReportRows? { return; }
    var rows := file.rows;
    var i := 0;
    while i < |rows|
      invariant i <= FirstEmpty(rows)
      invariant translations == LoadRows(rows[..i])
    {
      var row := rows[i];
      if |row| == 0 {
        assert FirstEmpty(rows) == i;
        return;
      }
      assert i < FirstEmpty(rows);
      assert rows[..i + 1][..i] == rows[..i];
      var languages := if |row| > 1 then Split(row[1], ", ") else [];
      translations := Put(translations, row[0], languages);
      i := i + 1;
    }
    assert rows[..i] == rows[..FirstEmpty(rows)];
  }

  /** What was read keeps every key once. */
  lemma {:induction false} LoadRowsValid(rows: seq<seq<string>>)
    requires forall i :: 0 <= i < |rows| ==> |rows[i]| > 0
    ensures Valid(LoadRows(rows))
  {
    if |rows| > 0 { LoadRowsValid(rows[..|rows| - 1]); }
  }

  /** Each key read carries the codes of the last row for it. */
  lemma {:induction false} LoadRowsGet(rows: seq<seq<string>>, i: nat)
    requires forall j :: 0 <= j < |rows| ==> |rows[j]| > 0
    requires i < |rows| && forall j :: i < j < |rows| ==> rows[j][0] != rows[i][0]
    ensures Get(LoadRows(rows), rows[i][0]) == Some(RowCodes(rows[i]))
  {
    if i < |rows| - 1 {
      LoadRowsGet(rows[..|rows| - 1], i);
    }
  }

  /** The iteration of `merge_translations` over the first |android| Android entries. */
  function MergeWith(ios: Report, android: Report): Report {
    if |android| == 0 then ios
    else
      var acc := MergeWith(ios, android[..|android| - 1]);
      var e := android[|android| - 1];
      if HasKey(acc, e.0) then acc else Put(acc, e.0, e.1)
  }

  /** `merge_translations`: a copy of iOS, then the Android keys iOS lacks, in Android order. */
  method Merge(ios: Report, android: Report) returns (merged: Report)
    ensures merged == MergeWith(ios, android)
  {
    merged := ios;
    for i := 0 to |android|
      invariant merged == MergeWith(ios, android[..i])
    {
      assert android[..i + 1][..i] == android[..i];
      var (key, langs) := android[i];
      if !HasKey(merged, key) {
        merged := Put(merged, key, langs);
      }
    }
    assert android[..|android|] == android;
  }

  /** The iOS entries come first and in their order. */
  lemma {:induction false} MergeKeepsIosFirst(ios: Report, android: Report)
    ensures ios <= MergeWith(ios, android)
  {
    if |android| > 0 {
      var init := android[..|android| - 1];
      var e := android[|android| - 1];
      MergeKeepsIosFirst(ios, init);
      var acc := MergeWith(ios, init);
      if !HasKey(acc, e.0) {
        PutFresh(acc, e.0, e.1);
      }
    }
  }

  /**
   * A key is merged exactly when either platform has it; an iOS key keeps
   * its iOS codes and a key only Android has takes Android's.
   */
  lemma {:induction false} MergeEntries(ios: Report, android: Report, k: string)
    ensures HasKey(MergeWith(ios, android), k) <==> HasKey(ios, k) || HasKey(android, k)
    ensures Get(MergeWith(ios, android), k) == if HasKey(ios, k) then Get(ios, k) else Get(android, k)
  {
    if |android| > 0 {
      var init := android[..|android| - 1];
      var e := android[|android| - 1];
      assert android == init + [e];
      MergeEntries(ios, init, k);
      GetSnoc(init, e, k);
      var acc := MergeWith(ios, init);
      if !HasKey(acc, e.0) {
        MergeStep(acc, e, k);
      }
    }
  }

  /** Appending an entry for a key the merge lacks so far. */
  lemma MergeStep(acc: Report, e: (string, seq<string>), k: string)
    requires !HasKey(acc, e.0)
    ensures HasKey(Put(acc, e.0, e.1), k) <==> HasKey(acc, k) || e.0 == k
    ensures Get(Put(acc, e.0, e.1), k) == if HasKey(acc, k) then Get(acc, k) else if e.0 == k then Some(e.1) else None
  {
    PutFresh(acc, e.0, e.1);
    GetSnoc(acc, e, k);
  }

  /** The merge keeps every key once. */
  lemma {:induction false} MergeValid(ios: Report, android: Report)
    requires Valid(ios)
    ensures Valid(MergeWith(ios, android))
  {
    if |android| > 0 { MergeValid(ios, android[..|android| - 1]); }
  }

  /** `print_summary`'s common count: the keys both platforms report. */
  function Common(ios: Report, android: Report): nat {
    |KeySet(ios) * KeySet(android)|
  }

  /** The merged count is the iOS count plus the Android count less the common keys. */
  lemma {:induction false} MergedCount(ios: Report, android: Report)
    requires Valid(ios) && Valid(android)
    ensures |MergeWith(ios, android)| + Common(ios, android) == |ios| + |android|
  {
    if |android| > 0 {
      var init := android[..|android| - 1];
      var e := android[|android| - 1];
      assert android == init + [e];
      ValidSnoc(init, e);
      MergedCount(ios, init);
      MergeEntries(ios, init, e.0);
      CommonSnoc(KeySet(ios), KeySet(init), e.0);
      assert Common(ios, android) == Common(ios, init) + (if HasKey(ios, e.0) then 1 else 0);
      var acc := MergeWith(ios, init);
      if HasKey(ios, e.0) {
        assert MergeWith(ios, android) == acc;
      } else {
        PutFresh(acc, e.0, e.1);
        assert MergeWith(ios, android) == acc + [e];
      }
    }
  }

  /** The entries before the last of a dictionary with unique keys lack the last key, and its key set grows by it. */
  lemma ValidSnoc(init: Report, e: (string, seq<string>))
    requires Valid(init + [e])
    ensures Valid(init) && !HasKey(init, e.0)
    ensures KeySet(init + [e]) == KeySet(init) + {e.0}
  {
    var m := init + [e];
    assert forall i :: 0 <= i < |init| ==> m[i] == init[i];
    forall k ensures HasKey(m, k) <==> HasKey(init, k) || e.0 == k { GetSnoc(init, e, k); }
    assert !HasKey(init, e.0) by {
      forall j | 0 <= j < |init| ensures Keys(init)[j] != e.0 {
        assert m[j].0 == init[j].0 && m[|init|] == e;
      }
    }
  }

  lemma CommonSnoc(a: set<string>, b: set<string>, x: string)
    requires x !in b
    ensures |a * (b + {x})| == |a * b| + (if x in a then 1 else 0)
  {
    if x in a {
      assert a * (b + {x}) == (a * b) + {x};
    } else {
      assert a * (b + {x}) == a * b;
    }
  }

  /** `write_final_csv`: one `[key, ", ".join(codes)]` row per key, in dictionary order. */
  function FinalCsv(translations: Report): seq<seq<string>> {
    CsvRows(translations)
  }

  /** The four counts of `print_summary`. */
  datatype Summary = Summary(totalIos: nat, totalAndroid: nat, totalMerged: nat, common: nat)

  /** What `run_merge` produces: nothing when both reports are empty, else the final rows and the summary. */
  datatype MergeRun = NothingToMerge | Merged(rows: seq<seq<string>>, summary: Summary)

  /** The dictionary `run_merge` writes when not both are empty: the merge, or the one that is non-empty. */
  function Selected(ios: Report, android: Report): Report {
    if |ios| > 0 && |android| > 0 then MergeWith(ios, android)
    else if |ios| > 0 then ios
    else android
  }

  function RunMergeSpec(iosFile: ReportFile, androidFile: ReportFile): MergeRun {
    var ios := LoadMissing(iosFile);
    var android := LoadMissing(androidFile);
    if |ios| == 0 && |android| == 0 then NothingToMerge
    else
      var merged := Selected(ios, android);
      Merged(FinalCsv(merged), Summary(|ios|, |android|, |merged|, Common(ios, android)))
  }

  /** `run_merge`. */
  method RunMerge(iosFile: ReportFile, androidFile: ReportFile) returns (run: MergeRun)
    ensures run == RunMergeSpec(iosFile, androidFile)
  {
    var ios := LoadMissingTranslations(iosFile);
    var android := LoadMissingTranslations(androidFile);
    if |ios| == 0 && |android| == 0 {
      return NothingToMerge;
    }
    var merged := if |ios| > 0 then ios else android;
    if |ios| > 0 && |android| > 0 {
      merged := Merge(ios, android);
    }
    run := Merged(FinalCsv(merged), Summary(|ios|, |android|, |merged|, Common(ios, android)));
  }

  /** In every outcome the summary adds up: merged = iOS + Android - common. */
  lemma SummaryAddsUp(iosFile: ReportFile, androidFile: ReportFile)
    requires RunMergeSpec(iosFile, androidFile).Merged?
    ensures var s := RunMergeSpec(iosFile, androidFile).summary;
      s.totalMerged + s.common == s.totalIos + s.totalAndroid
  {
    var ios := LoadMissing(iosFile);
    var android := LoadMissing(androidFile);
    LoadValid(iosFile);
    LoadValid(androidFile);
    if |ios| > 0 && |android| > 0 {
      MergedCount(ios, android);
    } else if |ios| > 0 {
      assert KeySet(android) == {};
    } else {
      assert KeySet(ios) == {};
    }
  }

  lemma LoadValid(file: ReportFile)
    ensures Valid(LoadMissing(file))
  {
    if file.ReportRows? {
      var n := FirstEmpty(file.rows);
      LoadRowsValid(file.rows[..n]);
    }
  }

  /** Codes as the scanners write them: a non-empty list of codes without ", ". */
  predicate Readable(translations: Report) {
    Valid(translations) && forall i :: 0 <= i < |translations| ==> ReadableCodes(translations[i].1)
  }

  predicate ReadableCodes(codes: seq<string>) {
    |codes| >= 1 && forall j :: 0 <= j < |codes| ==> !Contains(codes[j], ", ")
  }

  /** Reading the final CSV back gives the dictionary that was written. */
  lemma {:induction false} FinalCsvReadsBack(translations: Report)
    requires Readable(translations)
    ensures LoadMissing(ReportRows(FinalCsv(translations))) == translations
  {
    var rows := FinalCsv(translations);
    assert forall i :: 0 <= i < |rows| ==> |rows[i]| == 2;
    assert FirstEmpty(rows) == |rows|;
    assert rows[..|rows|] == rows;
    LoadRowsReadsBack(translations);
  }

  lemma {:induction false} LoadRowsReadsBack(translations: Report)
    requires Readable(translations)
    ensures forall i :: 0 <= i < |FinalCsv(translations)| ==> |FinalCsv(translations)[i]| > 0
    ensures LoadRows(FinalCsv(translations)) == translations
  {
    if |translations| > 0 {
      var n := |translations| - 1;
      var init := translations[..n];
      var e := translations[n];
      assert translations == init + [e];
      ValidSnoc(init, e);
      assert Readable(init);
      LoadRowsReadsBack(init);
      RowReadsBack(translations, n);
      PutFresh(init, e.0, e.1);
    }
  }

  /** The last row reads back as the last entry on top of the rows before it. */
  lemma RowReadsBack(translations: Report, n: nat)
    requires Readable(translations) && n == |translations| - 1
    ensures var rows := FinalCsv(translations);
      rows[..n] == FinalCsv(translations[..n])
      && LoadRows(rows) == Put(LoadRows(FinalCsv(translations[..n])), translations[n].0, translations[n].1)
  {
    var rows := FinalCsv(translations);
    assert rows[..n] == FinalCsv(translations[..n]);
    CsvRowReadsBack(translations, n);
    assert RowCodes(rows[n]) == translations[n].1;
  }
}
