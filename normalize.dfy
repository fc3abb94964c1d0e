/**
 * The normalisation step (`lokalise_translation_manager/utils/normalize_translations.py`):
 * the language list of every key needing translation is mapped to Lokalise
 * codes through a fixed table, unknown codes are dropped, and the keys that
 * have an English translation and at least one code left are written, with
 * the English translation id and text, for the preparation step.
 */
module Normalize {
  import opened Wrappers
  import opened Text
  import opened OrderedMaps

  /** `LOKALISE_LANGUAGES`: short code to Lokalise code. */
  const LokaliseLanguages: map<string, string> := map[
    "en" := "en", "de" := "de", "fr" := "fr", "it" := "it", "pl" := "pl",
    "sv" := "sv", "nb" := "nb", "da" := "da", "fi" := "fi",
    "lt" := "lt_LT", "lv" := "lv_LV", "et" := "et_EE",
    "tr" := "tr_TR", "ar" := "ar", "el" := "el"]

  /** The Lokalise code of one comma-separated part, when the table knows it. */
  function Mapped(part: string, table: map<string, string>, strip: string -> string): seq<string> {
    var clean := strip(part);
    if clean in table then [table[clean]] else []
  }

  /** The codes `normalize_languages` keeps from the parts, in order. */
  function Codes(parts: seq<string>, table: map<string, string>, strip: string -> string): (r: seq<string>)
    ensures forall i :: 0 <= i < |r| ==> r[i] in table.Values
  {
    if |parts| == 0 then []
    else Codes(parts[..|parts| - 1], table, strip) + Mapped(parts[|parts| - 1], table, strip)
  }

  /** The codes of a language field. */
  function NormalizedCodes(languages: string): seq<string> {
    Codes(Split(languages, ","), LokaliseLanguages, Strip)
  }

  /** `normalization_count` after counting `codes` once each. */
  function Counted(count: map<string, nat>, codes: seq<string>): (r: map<string, nat>)
    ensures r.Keys == count.Keys
  {
    if |codes| == 0 then count
    else CountOne(Counted(count, codes[..|codes| - 1]), codes[|codes| - 1])
  }

  /** `normalization_count[c] += 1` for a code with a counter. */
  function CountOne(acc: map<string, nat>, c: string): (r: map<string, nat>)
    ensures r.Keys == acc.Keys
  {
    if c in acc then acc[c := acc[c] + 1] else acc
  }

  /** Every table value has a counter, as `process_normalization` sets them up. */
  predicate CountsTable(count: map<string, nat>) {
    forall v :: v in LokaliseLanguages.Values ==> v in count
  }

  /** `{lang: 0 for lang in LOKALISE_LANGUAGES.values()}`. */
  function InitialCounts(): (count: map<string, nat>)
    ensures CountsTable(count)
  {
    map v | v in LokaliseLanguages.Values :: 0
  }

  /**
   * `normalize_languages`: split on ',', strip, keep the codes the table
   * knows, mapped through it, joined by ','; each kept code is counted.
   */
  method NormalizeLanguages(languages: string, count: map<string, nat>) returns (normalized: string, counted: map<string, nat>)
    requires CountsTable(count)
    ensures normalized == Join(NormalizedCodes(languages), ",")
    ensures counted == Counted(count, NormalizedCodes(languages))
  {
    normalized, counted := NormalizeWith(Split(languages, ","), LokaliseLanguages, count, Strip);
  }

  /** The loop of `normalize_languages` over the comma-separated parts, for a given table. */
  method NormalizeWith(parts: seq<string>, table: map<string, string>, count: map<string, nat>, strip: string -> string)
    returns (normalized: string, counted: map<string, nat>)
    requires forall v :: v in table.Values ==> v in count
    ensures normalized == Join(Codes(parts, table, strip), ",")
    ensures counted == Counted(count, Codes(parts, table, strip))
  {
    var kept: seq<string> := [];
    counted := count;
    for i := 0 to |parts|
      invariant kept == Codes(parts[..i], table, strip)
      invariant counted == Counted(count, kept)
    {
      assert parts[..i + 1][..i] == parts[..i];
      var clean := strip(parts[i]);
      if clean in table {
        var code := table[clean];
        CountedSnoc(count, kept, code);
        assert code in counted.Keys;
        kept := kept + [code];
        counted := counted[code := counted[code] + 1];
      }
    }
    assert parts[..|parts|] == parts;
    normalized := Join(kept, ",");
  }

  /** Counting one more code is one more step. */
  lemma CountedSnoc(count: map<string, nat>, kept: seq<string>, code: string)
    ensures Counted(count, kept + [code]) == CountOne(Counted(count, kept), code)
  {
    var codes := kept + [code];
    assert codes[..|codes| - 1] == kept;
  }

  /** The kept codes of concatenated parts are the concatenation: order is preserved. */
  lemma {:induction false} CodesKeepOrder(a: seq<string>, b: seq<string>, table: map<string, string>, strip: string -> string)
    ensures Codes(a + b, table, strip) == Codes(a, table, strip) + Codes(b, table, strip)
    decreases |b|
  {
    if |b| == 0 {
      assert a + b == a;
    } else {
      var b' := b[..|b| - 1];
      assert (a + b)[..|a + b| - 1] == a + b';
      assert (a + b)[|a + b| - 1] == b[|b| - 1];
      CodesKeepOrder(a, b', table, strip);
    }
  }

  /** One part gives its table entry, or nothing when the table does not know it. */
  lemma CodesOfOne(p: string, table: map<string, string>, strip: string -> string)
    ensures Codes([p], table, strip) == Mapped(p, table, strip)
  {
    assert [p][..0] == [];
  }

  /** Each kept code adds one to its counter and nothing else changes. */
  lemma {:induction false} CountedAdds(count: map<string, nat>, codes: seq<string>, v: string)
    requires forall i :: 0 <= i < |codes| ==> codes[i] in count
    requires v in count
    ensures v in Counted(count, codes) && Counted(count, codes)[v] == count[v] + multiset(codes)[v]
  {
    if |codes| > 0 {
      var init := codes[..|codes| - 1];
      CountedAdds(count, init, v);
      assert codes == init + [codes[|codes| - 1]];
      assert multiset(codes) == multiset(init) + multiset{codes[|codes| - 1]};
    }
  }

  /** A join of non-empty codes is empty exactly when there are no codes. */
  lemma JoinEmpty(codes: seq<string>, sep: string)
    requires forall i :: 0 <= i < |codes| ==> codes[i] != ""
    ensures Join(codes, sep) == "" <==> codes == []
  {
    if |codes| > 1 {
      JoinCons(codes[0], codes[1..], sep);
      assert codes == [codes[0]] + codes[1..];
    }
  }

  /** The table's values are never empty. */
  lemma TableValuesNonEmpty()
    ensures forall v :: v in LokaliseLanguages.Values ==> v != ""
  {
  }

  /**
   * Normalising is not idempotent: "lt" becomes "lt_LT", and "lt_LT",
   * which is no key of the table, is dropped.
   */
  lemma NotIdempotent()
    ensures Codes(["lt"], LokaliseLanguages, Strip) == ["lt_LT"]
    ensures Codes(["lt_LT"], LokaliseLanguages, Strip) == []
  {
    CodesOfOne("lt", LokaliseLanguages, Strip);
    CodesOfOne("lt_LT", LokaliseLanguages, Strip);
    LtIsMapped();
    LtLtIsDropped();
  }

  lemma LtIsMapped()
    ensures Mapped("lt", LokaliseLanguages, Strip) == ["lt_LT"]
  {
    StripKeeps("lt");
    LtEntry();
  }

  lemma LtEntry()
    ensures "lt" in LokaliseLanguages && LokaliseLanguages["lt"] == "lt_LT"
  {
  }

  lemma LtLtIsDropped()
    ensures Mapped("lt_LT", LokaliseLanguages, Strip) == []
  {
    StripKeeps("lt_LT");
    LtLtAbsent();
  }

  lemma LtLtAbsent()
    ensures "lt_LT" !in LokaliseLanguages
  {
  }

  /** A row of `merged_result.csv`; `keyName` is `None` when the file has no `key_name` column. */
  datatype MergedRow = MergedRow(keyName: Option<string>, keyId: string, languages: string)

  /** `merged_row.get('key_name', 'N/A')`. */
  function KeyNameOf(row: MergedRow): string {
    if row.keyName.Some? then row.keyName.value else "N/A"
  }

  /** A row of `en_translations.csv`. */
  datatype EnEntry = EnEntry(keyId: string, translationId: string, translation: string)

  /** A row of `merged_translations_result.csv`. */
  datatype OutRow = OutRow(keyName: string, keyId: string, languages: string, translationId: string, translation: string)

  /** `{row['key_id']: row for row in reader}`: a later row for a key id replaces the earlier one in its place. */
  function MergedData(rows: seq<MergedRow>): (r: OMap<string, MergedRow>)
    ensures Valid(r)
  {
    if |rows| == 0 then []
    else
      var row := rows[|rows| - 1];
      Put(MergedData(rows[..|rows| - 1]), row.keyId, row)
  }

  /** The English rows by key id, a later row winning. */
  function EnData(rows: seq<EnEntry>): map<string, EnEntry> {
    if |rows| == 0 then map[]
    else
      var row := rows[|rows| - 1];
      EnData(rows[..|rows| - 1])[row.keyId := row]
  }

  /** The key ids of the rows. */
  function KeyIds(rows: seq<MergedRow>): set<string> {
    if |rows| == 0 then {} else KeyIds(rows[..|rows| - 1]) + {rows[|rows| - 1].keyId}
  }

  /** The entries of `merged_data` are keyed by exactly the key ids read. */
  lemma {:induction false} MergedDataKeySet(rows: seq<MergedRow>)
    ensures KeySet(MergedData(rows)) == KeyIds(rows)
  {
    if |rows| > 0 {
      var init := rows[..|rows| - 1];
      var row := rows[|rows| - 1];
      MergedDataKeySet(init);
      PutKeySet(MergedData(init), row.keyId, row);
    }
  }

  /** One entry per distinct key id. */
  lemma MergedDataSize(rows: seq<MergedRow>)
    ensures |MergedData(rows)| == |KeyIds(rows)|
  {
    MergedDataKeySet(rows);
    KeySetSize(MergedData(rows));
  }

  /** The state of the merge loop: rows written so far, the two counters, the code counts. */
  datatype NormState = NormState(output: seq<OutRow>, merged: nat, skipped: nat, counts: map<string, nat>)

  /** An entry is written when English has its key id and some code survives normalisation. */
  predicate Keeps(e: (string, MergedRow), en: map<string, EnEntry>, table: map<string, string>, strip: string -> string) {
    e.0 in en && Codes(Split(e.1.languages, ","), table, strip) != []
  }

  /** The row written for an entry whose key id English has. */
  function RowFor(e: (string, MergedRow), en: map<string, EnEntry>, table: map<string, string>, strip: string -> string): OutRow
    requires e.0 in en
  {
    OutRow(KeyNameOf(e.1), e.0, Join(Codes(Split(e.1.languages, ","), table, strip), ","), en[e.0].translationId, en[e.0].translation)
  }

  /** Every table value has a counter. */
  predicate Counts(table: map<string, string>, count: map<string, nat>) {
    forall v :: v in table.Values ==> v in count
  }

  /** The merge loop of `process_normalization` over the first |entries| entries, for a given table. */
  function MergeLoop(entries: seq<(string, MergedRow)>, en: map<string, EnEntry>, table: map<string, string>, count: map<string, nat>, strip: string -> string): (st: NormState)
    requires Counts(table, count)
    ensures st.counts.Keys == count.Keys
  {
    if |entries| == 0 then NormState([], 0, 0, count)
    else MergeStep(MergeLoop(entries[..|entries| - 1], en, table, count, strip), entries[|entries| - 1], en, table, strip)
  }

  /** One turn of the merge loop. */
  function MergeStep(st: NormState, e: (string, MergedRow), en: map<string, EnEntry>, table: map<string, string>, strip: string -> string): (r: NormState)
    ensures r.counts.Keys == st.counts.Keys
  {
    if e.0 in en then
      var codes := Codes(Split(e.1.languages, ","), table, strip);
      var counts := Counted(st.counts, codes);
      if Join(codes, ",") == "" then NormState(st.output, st.merged, st.skipped + 1, counts)
      else NormState(st.output + [RowFor(e, en, table, strip)], st.merged + 1, st.skipped, counts)
    else NormState(st.output, st.merged, st.skipped + 1, st.counts)
  }

  /** Every entry is counted once, as merged or as skipped, and one row is written per merged entry. */
  lemma {:induction false} MergeLoopCounts(entries: seq<(string, MergedRow)>, en: map<string, EnEntry>, table: map<string, string>, count: map<string, nat>, strip: string -> string)
    requires Counts(table, count)
    ensures var st := MergeLoop(entries, en, table, count, strip);
      st.merged + st.skipped == |entries| && |st.output| == st.merged
  {
    if |entries| > 0 {
      MergeLoopCounts(entries[..|entries| - 1], en, table, count, strip);
    }
  }

  /** The row an entry contributes, if any. */
  function Pick(e: (string, MergedRow), en: map<string, EnEntry>, table: map<string, string>, strip: string -> string): Option<OutRow> {
    if Keeps(e, en, table, strip) then Some(RowFor(e, en, table, strip)) else None
  }

  /** The values `pick` gives, in order. */
  function Picked<T, U>(xs: seq<T>, pick: T -> Option<U>): seq<U> {
    if |xs| == 0 then []
    else
      var p := pick(xs[|xs| - 1]);
      Picked(xs[..|xs| - 1], pick) + if p.Some? then [p.value] else []
  }

  /** Something is picked exactly when some element gives it. */
  lemma {:induction false} PickedMembers<T, U>(xs: seq<T>, pick: T -> Option<U>, u: U)
    ensures u in Picked(xs, pick) <==> exists i :: 0 <= i < |xs| && pick(xs[i]) == Some(u)
  {
    if |xs| > 0 {
      var init := xs[..|xs| - 1];
      PickedMembers(init, pick, u);
      if exists i :: 0 <= i < |xs| && pick(xs[i]) == Some(u) {
        var i :| 0 <= i < |xs| && pick(xs[i]) == Some(u);
        if i < |init| { assert init[i] == xs[i]; }
      }
      if exists i :: 0 <= i < |init| && pick(init[i]) == Some(u) {
        var i :| 0 <= i < |init| && pick(init[i]) == Some(u);
        assert xs[i] == init[i];
      }
    }
  }

  /** The rows written are the rows the entries pick, in order. */
  lemma {:induction false} MergeLoopOutput(entries: seq<(string, MergedRow)>, en: map<string, EnEntry>, table: map<string, string>, count: map<string, nat>, strip: string -> string)
    requires Counts(table, count)
    requires forall v :: v in table.Values ==> v != ""
    ensures MergeLoop(entries, en, table, count, strip).output == Picked(entries, e => Pick(e, en, table, strip))
  {
    if |entries| > 0 {
      var e := entries[|entries| - 1];
      MergeLoopOutput(entries[..|entries| - 1], en, table, count, strip);
      if e.0 in en { JoinEmpty(Codes(Split(e.1.languages, ","), table, strip), ","); }
    }
  }

  /** The counts of `print` in the `finally` block. */
  datatype NormalizeSummary = NormalizeSummary(totalKeys: nat, totalEnglish: nat, merged: nat, skipped: nat, counts: map<string, nat>)

  /**
   * A run of `process_normalization`: the output file (None when it is not
   * written) and the summary, or an exception escaping the function.
   */
  datatype NormalizeRun = Normalized(output: Option<seq<OutRow>>, summary: NormalizeSummary) | Crashed

  /** The run when both input files exist, for a given table and initial counts. */
  function ProcessWith(mergedRows: seq<MergedRow>, enRows: seq<EnEntry>, table: map<string, string>, count: map<string, nat>): NormalizeRun
    requires Counts(table, count)
  {
    var data := MergedData(mergedRows);
    var en := EnData(enRows);
    var st := MergeLoop(data, en, table, count, Strip);
    Normalized(Some(st.output), NormalizeSummary(|data|, |en|, st.merged, st.skipped, st.counts))
  }

  function ProcessFiles(mergedRows: seq<MergedRow>, enRows: seq<EnEntry>): NormalizeRun {
    ProcessWith(mergedRows, enRows, LokaliseLanguages, InitialCounts())
  }

  /**
   * `process_normalization` as written: when an input file is missing, the
   * `finally` block reads `merged_data` or `en_data` before either was
   * assigned, and the `UnboundLocalError` escapes.
   */
  function ProcessNormalizationAsWritten(mergedFile: Option<seq<MergedRow>>, enFile: Option<seq<EnEntry>>): NormalizeRun {
    if mergedFile.None? || enFile.None? then Crashed
    else ProcessFiles(mergedFile.value, enFile.value)
  }

  /** Missing either input, the function as written ends in an exception. */
  lemma MissingInputCrashes(enFile: Option<seq<EnEntry>>)
    ensures ProcessNormalizationAsWritten(None, enFile) == Crashed
    ensures ProcessNormalizationAsWritten(Some([]), None) == Crashed
  {
  }

  /**
   * `process_normalization` as intended: a missing input file is reported,
   * nothing is written, and the summary counts what was read.
   */
  function ProcessNormalizationSpec(mergedFile: Option<seq<MergedRow>>, enFile: Option<seq<EnEntry>>): NormalizeRun {
    if mergedFile.None? then Normalized(None, NormalizeSummary(0, 0, 0, 0, InitialCounts()))
    else if enFile.None? then Normalized(None, NormalizeSummary(|MergedData(mergedFile.value)|, 0, 0, 0, InitialCounts()))
    else ProcessFiles(mergedFile.value, enFile.value)
  }

  /** The two agree whenever both files exist. */
  lemma AsWrittenAgreesWithBothFiles(mergedRows: seq<MergedRow>, enRows: seq<EnEntry>)
    ensures ProcessNormalizationAsWritten(Some(mergedRows), Some(enRows)) == ProcessNormalizationSpec(Some(mergedRows), Some(enRows))
  {
  }

  /**
   * Whatever the inputs, the intended run always ends with a summary, and
   * merged plus skipped is the number of distinct key ids read.
   */
  lemma SummaryAccountsForEveryKey(mergedFile: Option<seq<MergedRow>>, enFile: Option<seq<EnEntry>>)
    ensures ProcessNormalizationSpec(mergedFile, enFile).Normalized?
    ensures var s := ProcessNormalizationSpec(mergedFile, enFile).summary;
      mergedFile.Some? && enFile.Some? ==> s.merged + s.skipped == s.totalKeys == |KeyIds(mergedFile.value)|
  {
    if mergedFile.Some? && enFile.Some? {
      MergeLoopCounts(MergedData(mergedFile.value), EnData(enFile.value), LokaliseLanguages, InitialCounts(), Strip);
      MergedDataSize(mergedFile.value);
    }
  }

  /**
   * With both files present, a row is written exactly for each distinct
   * key id that English has and whose languages keep some code; it
   * carries the key name of the last row read for that id, the kept codes
   * and the English translation id and text.
   */
  lemma OutputRows(mergedRows: seq<MergedRow>, enRows: seq<EnEntry>, r: OutRow)
    ensures var data := MergedData(mergedRows);
      var en := EnData(enRows);
      r in ProcessFiles(mergedRows, enRows).output.value
      <==> exists i :: 0 <= i < |data| && Pick(data[i], en, LokaliseLanguages, Strip) == Some(r)
  {
    var data := MergedData(mergedRows);
    var en := EnData(enRows);
    var out := MergeLoop(data, en, LokaliseLanguages, InitialCounts(), Strip).output;
    assert ProcessFiles(mergedRows, enRows).output.value == out;
    assert out == Picked(data, e => Pick(e, en, LokaliseLanguages, Strip)) by {
      TableValuesNonEmpty();
      MergeLoopOutput(data, en, LokaliseLanguages, InitialCounts(), Strip);
    }
    PickedMembers(data, e => Pick(e, en, LokaliseLanguages, Strip), r);
  }

  /** `process_normalization`, with the missing-file path as intended. */
  method ProcessNormalization(mergedFile: Option<seq<MergedRow>>, enFile: Option<seq<EnEntry>>) returns (run: NormalizeRun)
    ensures run == ProcessNormalizationSpec(mergedFile, enFile)
  {
    var counts := InitialCounts();
    if mergedFile.None? {
      return Normalized(None, NormalizeSummary(0, 0, 0, 0, counts));
    }
    var data := ReadMergedData(mergedFile.value);
    if enFile.None? {
      return Normalized(None, NormalizeSummary(|data|, 0, 0, 0, counts));
    }
    var en := EnData(enFile.value);
    var st := MergeEntries(data, en, LokaliseLanguages, counts, Strip);
    run := Normalized(Some(st.output), NormalizeSummary(|data|, |en|, st.merged, st.skipped, st.counts));
  }

  /** The loop over `merged_data.items()`. */
  method MergeEntries(data: seq<(string, MergedRow)>, en: map<string, EnEntry>, table: map<string, string>, count: map<string, nat>,
                      strip: string -> string)
    returns (st: NormState)
    requires Counts(table, count)
    ensures st == MergeLoop(data, en, table, count, strip)
  {
    st := NormState([], 0, 0, count);
    for i := 0 to |data|
      invariant st == MergeLoop(data[..i], en, table, count, strip)
    {
      assert data[..i + 1][..i] == data[..i];
      st := MergeEntry(st, data[i], en, table, strip);
    }
    assert data[..|data|] == data;
  }

  /** One turn of the loop over `merged_data.items()`. */
  method MergeEntry(st: NormState, e: (string, MergedRow), en: map<string, EnEntry>, table: map<string, string>,
                    strip: string -> string)
    returns (next: NormState)
    requires Counts(table, st.counts)
    ensures next == MergeStep(st, e, en, table, strip)
  {
    var (keyId, row) := e;
    if keyId in en {
      var normalized, counts := NormalizeWith(Split(row.languages, ","), table, st.counts, strip);
      if normalized == "" {
        next := NormState(st.output, st.merged, st.skipped + 1, counts);
      } else {
        var out := OutRow(KeyNameOf(row), keyId, normalized, en[keyId].translationId, en[keyId].translation);
        next := NormState(st.output + [out], st.merged + 1, st.skipped, counts);
      }
    } else {
      next := NormState(st.output, st.merged, st.skipped + 1, st.counts);
    }
  }

  /** The dictionary comprehension reading `merged_result.csv`. */
  method ReadMergedData(rows: seq<MergedRow>) returns (data: OMap<string, MergedRow>)
    ensures data == MergedData(rows)
  {
    data := [];
    for i := 0 to |rows|
      invariant data == MergedData(rows[..i])
    {
      assert rows[..i + 1][..i] == rows[..i];
      data := Put(data, rows[i].keyId, rows[i]);
    }
    assert rows[..|rows|] == rows;
  }
}
