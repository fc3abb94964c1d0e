/**
 * The preparation step (`lokalise_translation_manager/utils/prepare_translations.py`):
 * the translation ids downloaded per key are turned into a lookup
 * key id -> language -> translation id, and every normalised row gets the
 * id of each language it needs, in the order of its language list, with
 * Turkish looked up under Lokalise's short code.
 */
module PrepareTranslations {
  import opened Wrappers
  import opened Text

  /** A row of `all_translation_ids.csv`: comma-joined languages and ids of one key. */
  datatype IdRow = IdRow(keyId: string, languageIso: string, translationId: string)

  /** A row of `merged_translations_result.csv`; `keyName` is None when the column is absent. */
  datatype InRow = InRow(keyName: Option<string>, keyId: string, languages: string, translation: string)

  /** A row of `ready_to_translations.csv`. */
  datatype OutRow = OutRow(keyName: string, keyId: string, languages: string, translationId: string, translation: string)

  type Lookup = map<string, map<string, string>>

  /** `[p.strip() for p in s.split(',') if p.strip()]`. */
  function Cleaned(s: string): seq<string> {
    SplitStripped(s, ",")
  }

  function Min(a: nat, b: nat): nat {
    if a <= b then a else b
  }

  /** `dict(zip(keys, values))`: pairs up to the shorter list, a later pair for a key winning. */
  function ZipDict(keys: seq<string>, values: seq<string>): (r: map<string, string>)
    ensures forall k :: k in r ==> r[k] in values
    decreases |keys|
  {
    var n := Min(|keys|, |values|);
    if n == 0 then map[]
    else ZipDict(keys[..n - 1], values[..n - 1])[keys[n - 1] := values[n - 1]]
  }

  /** `j` is the last of the first `n` positions that holds `k`. */
  predicate LastAt(keys: seq<string>, n: nat, k: string, j: nat) {
    j < n <= |keys| && keys[j] == k && forall i :: j < i < n ==> keys[i] != k
  }

  /**
   * The zip stops at the shorter list: a key is present exactly when it is
   * among the first min(|keys|, |values|) keys, and it maps to the value
   * paired with its last occurrence there.
   */
  lemma {:induction false} ZipDictEntries(keys: seq<string>, values: seq<string>, k: string)
    ensures var n := Min(|keys|, |values|);
      (k in ZipDict(keys, values) <==> k in keys[..n])
      && forall j: nat :: LastAt(keys, n, k, j) ==> ZipDict(keys, values)[k] == values[j]
    decreases |keys|
  {
    var n := Min(|keys|, |values|);
    if n > 0 {
      var ks := keys[..n - 1];
      var vs := values[..n - 1];
      ZipDictEntries(ks, vs, k);
      assert Min(|ks|, |vs|) == n - 1;
      assert keys[..n] == ks + [keys[n - 1]];
      assert ks[..n - 1] == ks;
      forall j: nat | LastAt(keys, n, k, j) ensures ZipDict(keys, values)[k] == values[j] {
        if j < n - 1 {
          assert LastAt(ks, n - 1, k, j);
        }
      }
    }
  }

  /** The language -> id map of one row: `dict(zip(languages, translation_ids))`. */
  function RowDict(row: IdRow): map<string, string> {
    ZipDict(Cleaned(row.languageIso), Cleaned(row.translationId))
  }

  /** The lookup after the first |rows| rows, each row mapped by `dictOf`; a later row for a key id replaces the earlier one. */
  function LookupWith(rows: seq<IdRow>, dictOf: IdRow -> map<string, string>): Lookup {
    if |rows| == 0 then map[]
    else
      var row := rows[|rows| - 1];
      LookupWith(rows[..|rows| - 1], dictOf)[row.keyId := dictOf(row)]
  }

  /** `id_lookup` as built from `all_translation_ids.csv`. */
  function LookupOf(rows: seq<IdRow>): Lookup {
    LookupWith(rows, RowDict)
  }

  /** `j` is the last row for key id `k`. */
  predicate LastRowFor(rows: seq<IdRow>, k: string, j: nat) {
    j < |rows| && rows[j].keyId == k && forall i :: j < i < |rows| ==> rows[i].keyId != k
  }

  /** A key id has a lookup exactly when some row names it, and the last such row decides it. */
  lemma {:induction false} LookupLastWins(rows: seq<IdRow>, dictOf: IdRow -> map<string, string>, k: string)
    ensures (k in LookupWith(rows, dictOf) <==> exists i :: 0 <= i < |rows| && rows[i].keyId == k)
    ensures forall j: nat :: LastRowFor(rows, k, j) ==> k in LookupWith(rows, dictOf) && LookupWith(rows, dictOf)[k] == dictOf(rows[j])
  {
    if |rows| > 0 {
      var init := rows[..|rows| - 1];
      LookupLastWins(init, dictOf, k);
      assert forall i :: 0 <= i < |init| ==> rows[i] == init[i];
      forall j: nat | LastRowFor(rows, k, j)
        ensures k in LookupWith(rows, dictOf) && LookupWith(rows, dictOf)[k] == dictOf(rows[j])
      {
        if j < |init| { assert LastRowFor(init, k, j); }
      }
    }
  }

  /**
   * `load_translation_id_lookup`: None when `all_translation_ids.csv` is
   * missing (the `FileNotFoundError` that ends the step).
   */
  method LoadTranslationIdLookup(idsFile: Option<seq<IdRow>>) returns (lookup: Option<Lookup>)
    ensures idsFile.None? ==> lookup.None?
    ensures idsFile.Some? ==> lookup == Some(LookupOf(idsFile.value))
  {
    if idsFile.None? {
      return None;
    }
    var table := LoadWith(idsFile.value, RowDict);
    return Some(table);
  }

  /** The loop over the rows of `all_translation_ids.csv`. */
  method LoadWith(rows: seq<IdRow>, dictOf: IdRow -> map<string, string>) returns (table: Lookup)
    ensures table == LookupWith(rows, dictOf)
  {
    table := map[];
    for i := 0 to |rows|
      invariant table == LookupWith(rows[..i], dictOf)
    {
      assert rows[..i + 1][..i] == rows[..i];
      table := table[rows[i].keyId := dictOf(rows[i])];
    }
    assert rows[..|rows|] == rows;
  }

  /** The Turkish hotfix: 'tr_TR' is looked up as 'tr'. */
  function LookupLang(lang: string): string {
    if lang == "tr_TR" then "tr" else lang
  }

  /** The id of one needed language, '' where the lookup has none. */
  function IdFor(lookup: Lookup, keyId: string, lang: string): string {
    if keyId in lookup && LookupLang(lang) in lookup[keyId] then lookup[keyId][LookupLang(lang)] else ""
  }

  /** `final_translation_ids`: one id per needed language, in order. */
  function IdsFor(lookup: Lookup, keyId: string, langs: seq<string>): (ids: seq<string>)
    ensures |ids| == |langs|
    ensures forall i :: 0 <= i < |langs| ==> ids[i] == IdFor(lookup, keyId, langs[i])
  {
    if |langs| == 0 then []
    else IdsFor(lookup, keyId, langs[..|langs| - 1]) + [IdFor(lookup, keyId, langs[|langs| - 1])]
  }

  /** The output row of one input row, its language list cleaned by `clean`. */
  function EnrichedWith(lookup: Lookup, row: InRow, clean: string -> seq<string>): OutRow {
    var langs := clean(row.languages);
    var name := if row.keyName.Some? then row.keyName.value else "N/A";
    OutRow(name, row.keyId, Join(langs, ","), Join(IdsFor(lookup, row.keyId, langs), ","), row.translation)
  }

  /** The output row of one input row. */
  function Enriched(lookup: Lookup, row: InRow): OutRow {
    EnrichedWith(lookup, row, Cleaned)
  }

  /** Each row through `enrich`, in order. */
  function MapRows(rows: seq<InRow>, enrich: InRow -> OutRow): (out: seq<OutRow>)
    ensures |out| == |rows|
    ensures forall i :: 0 <= i < |rows| ==> out[i] == enrich(rows[i])
  {
    if |rows| == 0 then [] else MapRows(rows[..|rows| - 1], enrich) + [enrich(rows[|rows| - 1])]
  }

  /** `output_rows`: one enriched row per input row, in order. */
  function EnrichedRows(lookup: Lookup, rows: seq<InRow>): (out: seq<OutRow>)
    ensures |out| == |rows|
    ensures forall i :: 0 <= i < |rows| ==> out[i] == Enriched(lookup, rows[i])
  {
    MapRows(rows, row => Enriched(lookup, row))
  }

  /** The ids of one row, by the loop over its needed languages. */
  method FinalTranslationIds(lookup: Lookup, keyId: string, langs: seq<string>) returns (ids: seq<string>)
    ensures ids == IdsFor(lookup, keyId, langs)
  {
    ids := [];
    for j := 0 to |langs|
      invariant ids == IdsFor(lookup, keyId, langs[..j])
    {
      assert langs[..j + 1][..j] == langs[..j];
      var lookupLang := if langs[j] == "tr_TR" then "tr" else langs[j];
      if keyId in lookup && lookupLang in lookup[keyId] {
        ids := ids + [lookup[keyId][lookupLang]];
      } else {
        ids := ids + [""];
      }
    }
    assert langs[..|langs|] == langs;
  }

  /**
   * `enrich_and_save_translations`: None when the normalised file is
   * missing, otherwise the rows written to `ready_to_translations.csv`.
   */
  method EnrichAndSaveTranslations(lookup: Lookup, inFile: Option<seq<InRow>>) returns (out: Option<seq<OutRow>>)
    ensures inFile.None? ==> out.None?
    ensures inFile.Some? ==> out == Some(EnrichedRows(lookup, inFile.value))
  {
    if inFile.None? {
      return None;
    }
    var output := EnrichRows(lookup, inFile.value, Cleaned);
    assert output == EnrichedRows(lookup, inFile.value);
    return Some(output);
  }

  /** The loop of `enrich_and_save_translations` over the normalised rows. */
  method EnrichRows(lookup: Lookup, rows: seq<InRow>, clean: string -> seq<string>) returns (output: seq<OutRow>)
    ensures output == MapRows(rows, row => EnrichedWith(lookup, row, clean))
  {
    output := [];
    for i := 0 to |rows|
      invariant |output| == i
      invariant forall j :: 0 <= j < i ==> output[j] == EnrichedWith(lookup, rows[j], clean)
    {
      var row := rows[i];
      var name := if row.keyName.Some? then row.keyName.value else "N/A";
      var needed := clean(row.languages);
      var ids := FinalTranslationIds(lookup, row.keyId, needed);
      output := output + [OutRow(name, row.keyId, Join(needed, ","), Join(ids, ","), row.translation)];
    }
  }

  /** `main`: both files are needed; either missing ends the step with nothing written. */
  method Prepare(idsFile: Option<seq<IdRow>>, inFile: Option<seq<InRow>>) returns (out: Option<seq<OutRow>>)
    ensures out.Some? <==> idsFile.Some? && inFile.Some?
    ensures out.Some? ==> out.value == EnrichedRows(LookupOf(idsFile.value), inFile.value)
  {
    var lookup := LoadTranslationIdLookup(idsFile);
    if lookup.None? {
      return None;
    }
    out := EnrichAndSaveTranslations(lookup.value, inFile);
  }

  /** Turkish is looked up under 'tr' while the language list keeps 'tr_TR'. */
  lemma TurkishHotfix(lookup: Lookup, row: InRow, i: nat)
    requires i < |Cleaned(row.languages)| && Cleaned(row.languages)[i] == "tr_TR"
    ensures IdsFor(lookup, row.keyId, Cleaned(row.languages))[i] == IdFor(lookup, row.keyId, "tr")
    ensures "tr_TR" in Cleaned(row.languages)
  {
  }

  /**
   * The language and id columns of an output row split on ',' into lists
   * of the same length, the languages giving back the needed list.
   */
  lemma ColumnsAlign(lookup: Lookup, row: InRow)
    requires CommaFree(lookup)
    ensures var out := Enriched(lookup, row);
      |Split(out.languages, ",")| == |Split(out.translationId, ",")|
    ensures var langs := Cleaned(row.languages);
      |langs| > 0 ==> Split(Enriched(lookup, row).languages, ",") == langs
  {
    var langs := Cleaned(row.languages);
    SplitStrippedLacks(row.languages, ',');
    JoinedAlign(langs, IdsFor(lookup, row.keyId, langs));
  }

  /** Two comma-free lists of the same length join into columns that split back alike. */
  lemma JoinedAlign(a: seq<string>, b: seq<string>)
    requires |a| == |b|
    requires forall i :: 0 <= i < |a| ==> ',' !in a[i] && ',' !in b[i]
    ensures |Split(Join(a, ","), ",")| == |Split(Join(b, ","), ",")|
    ensures |a| > 0 ==> Split(Join(a, ","), ",") == a && Split(Join(b, ","), ",") == b
  {
    if |a| > 0 {
      forall i | 0 <= i < |a| ensures SepFree(a[i], ",") && SepFree(b[i], ",") {
        CharSepFree(a[i], ',');
        CharSepFree(b[i], ',');
      }
      SplitJoin(a, ",");
      SplitJoin(b, ",");
    }
  }

  /** No translation id in the lookup holds a comma. */
  ghost predicate CommaFree(lookup: Lookup) {
    forall k, l :: k in lookup && l in lookup[k] ==> ',' !in lookup[k][l]
  }

  /** The lookup read from the file is comma free: its ids come out of a comma split. */
  lemma {:induction false} LookupCommaFree(rows: seq<IdRow>)
    ensures CommaFree(LookupOf(rows))
  {
    if |rows| > 0 {
      var row := rows[|rows| - 1];
      LookupCommaFree(rows[..|rows| - 1]);
      SplitStrippedLacks(row.translationId, ',');
    }
  }
}
