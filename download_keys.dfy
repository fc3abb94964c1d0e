/**
 * The Lokalise download (`lokalise_translation_manager/utils/download_lokalise_keys.py`):
 * translations and keys are fetched page by page, the English translations
 * and the translation ids grouped by key are written out, the keys are
 * written with their first platform name, and the scanners' missing list is
 * joined with the key ids. The HTTP GETs are an oracle: `pages[n - 1]` is
 * what the request for page `n` gets back, and a page beyond the sequence
 * comes back empty. The 1/6-second pause between pages is not modelled.
 */
module DownloadKeys {
  import opened Wrappers
  import opened Text
  import opened OrderedMaps
  import opened Csv

  /** What one page request gets: the page's items, or a `RequestException`. */
  datatype PageReply<T> = Page(items: seq<T>) | RequestError

  /** The outcome of a fetch loop: the items collected and the page numbers requested. */
  datatype Fetched<T> = Fetched(items: seq<T>, requested: seq<nat>)

  /** The fetch loop from page `i + 1` on. */
  function FetchFrom<T>(pages: seq<PageReply<T>>, i: nat): Fetched<T>
    decreases |pages| - i
  {
    if i >= |pages| then Fetched([], [i + 1])
    else match pages[i]
      case RequestError => Fetched([], [i + 1])
      case Page(items) =>
        if |items| == 0 then Fetched([], [i + 1])
        else
          var rest := FetchFrom(pages, i + 1);
          Fetched(items + rest.items, [i + 1] + rest.requested)
  }

  function Fetch<T>(pages: seq<PageReply<T>>): Fetched<T> {
    FetchFrom(pages, 0)
  }

  /** `more` preceded by what was collected and requested before it. */
  function After<T>(items: seq<T>, requested: seq<nat>, more: Fetched<T>): Fetched<T> {
    Fetched(items + more.items, requested + more.requested)
  }

  /**
   * `fetch_translations` and `fetch_keys`, which run the same `while True`
   * loop over translation pages and key pages: request page 1, 2, ... and
   * extend the result until a page is empty or a request fails; what was
   * collected so far is returned either way.
   */
  method FetchPages<T>(pages: seq<PageReply<T>>) returns (collected: seq<T>, requested: seq<nat>)
    ensures Fetched(collected, requested) == Fetch(pages)
  {
    collected := [];
    requested := [];
    var page: nat := 1;
    while true
      invariant page >= 1
      invariant Fetch(pages) == After(collected, requested, FetchFrom(pages, page - 1))
      decreases |pages| - (page - 1)
    {
      var reply := if page - 1 < |pages| then pages[page - 1] else Page([]);
      if reply.RequestError? || |reply.items| == 0 {
        FetchStops(pages, page - 1, collected, requested);
        return collected, requested + [page];
      }
      FetchGoesOn(pages, page - 1, collected, requested);
      collected := collected + reply.items;
      requested := requested + [page];
      page := page + 1;
    }
  }

  lemma FetchStops<T>(pages: seq<PageReply<T>>, i: nat, collected: seq<T>, requested: seq<nat>)
    requires i >= |pages| || pages[i].RequestError? || |pages[i].items| == 0
    ensures After(collected, requested, FetchFrom(pages, i)) == Fetched(collected, requested + [i + 1])
  {
    assert FetchFrom(pages, i) == Fetched([], [i + 1]);
    assert collected + [] == collected;
  }

  lemma FetchGoesOn<T>(pages: seq<PageReply<T>>, i: nat, collected: seq<T>, requested: seq<nat>)
    requires i < |pages| && pages[i].Page? && |pages[i].items| > 0
    ensures After(collected, requested, FetchFrom(pages, i))
      == After(collected + pages[i].items, requested + [i + 1], FetchFrom(pages, i + 1))
  {
    var rest := FetchFrom(pages, i + 1);
    assert collected + (pages[i].items + rest.items) == (collected + pages[i].items) + rest.items;
    assert requested + ([i + 1] + rest.requested) == (requested + [i + 1]) + rest.requested;
  }

  /** The items of the first `k` pages, in page order. */
  function Concat<T>(pages: seq<PageReply<T>>): seq<T>
    requires forall j :: 0 <= j < |pages| ==> pages[j].Page?
  {
    if |pages| == 0 then [] else pages[0].items + Concat(pages[1..])
  }

  /** 1, 2, ..., n. */
  function PageNumbers(from: nat, n: nat): (r: seq<nat>)
    ensures |r| == n && forall j :: 0 <= j < n ==> r[j] == from + j
    decreases n
  {
    if n == 0 then [] else [from] + PageNumbers(from + 1, n - 1)
  }

  /**
   * When pages 1..k are non-empty and page k + 1 is empty or fails, the
   * loop requests pages 1..k + 1 and returns the items of pages 1..k in
   * order.
   */
  lemma {:induction false} FetchStopsAtFirstEmptyPage<T>(pages: seq<PageReply<T>>, k: nat)
    requires k <= |pages|
    requires forall j :: 0 <= j < k ==> pages[j].Page? && |pages[j].items| > 0
    requires k < |pages| ==> pages[k].RequestError? || |pages[k].items| == 0
    ensures Fetch(pages) == Fetched(Concat(pages[..k]), PageNumbers(1, k + 1))
  {
    StopsFrom(pages, k, 0);
  }

  lemma {:induction false} StopsFrom<T>(pages: seq<PageReply<T>>, k: nat, i: nat)
    requires i <= k <= |pages|
    requires forall j :: i <= j < k ==> pages[j].Page? && |pages[j].items| > 0
    requires k < |pages| ==> pages[k].RequestError? || |pages[k].items| == 0
    ensures FetchFrom(pages, i) == Fetched(Concat(pages[i..k]), PageNumbers(i + 1, k - i + 1))
    decreases k - i
  {
    if i < k {
      StopsFrom(pages, k, i + 1);
      assert pages[i..k][1..] == pages[i + 1..k];
      assert pages[i..k][0] == pages[i];
    } else {
      assert pages[i..k] == [];
    }
  }

  /** Whatever the replies, pages are requested as 1, 2, 3, ... without gaps. */
  lemma {:induction false} PagesRequestedInOrder<T>(pages: seq<PageReply<T>>, i: nat)
    ensures var r := FetchFrom(pages, i).requested; |r| >= 1 && r == PageNumbers(i + 1, |r|)
    decreases |pages| - i
  {
    if i < |pages| && pages[i].Page? && |pages[i].items| > 0 {
      PagesRequestedInOrder(pages, i + 1);
      var rest := FetchFrom(pages, i + 1).requested;
      assert [i + 1] + PageNumbers(i + 2, |rest|) == PageNumbers(i + 1, |rest| + 1);
    }
  }

  /** A translation object of the API: only the fields this tool reads. */
  datatype Translation = Translation(translationId: string, keyId: string, languageIso: string, translation: string)

  /** The `en_translations.csv` row of an English translation. */
  function EnRow(t: Translation): seq<string> {
    [t.keyId, t.translationId, t.translation]
  }

  /** The rows written to `en_translations.csv`, after its header. */
  function EnRows(ts: seq<Translation>): seq<seq<string>> {
    if |ts| == 0 then []
    else
      var t := ts[|ts| - 1];
      EnRows(ts[..|ts| - 1]) + (if t.languageIso == "en" then [EnRow(t)] else [])
  }

  /** The English file holds the English translations and only them, in input order. */
  lemma EnRowsFilter(a: seq<Translation>, b: seq<Translation>)
    ensures EnRows(a + b) == EnRows(a) + EnRows(b)
    ensures EnRows([]) == [] && forall t :: EnRows([t]) == if t.languageIso == "en" then [EnRow(t)] else []
  {
    EnRowsAppend(a, b);
    forall t ensures EnRows([t]) == if t.languageIso == "en" then [EnRow(t)] else [] {
      EnRowsSingle(t);
    }
  }

  lemma {:induction false} EnRowsAppend(a: seq<Translation>, b: seq<Translation>)
    ensures EnRows(a + b) == EnRows(a) + EnRows(b)
    decreases |b|
  {
    if |b| > 0 {
      var b' := b[..|b| - 1];
      assert (a + b)[..|a + b| - 1] == a + b';
      EnRowsAppend(a, b');
    } else {
      assert a + b == a;
    }
  }

  lemma EnRowsSingle(t: Translation)
    ensures EnRows([t]) == if t.languageIso == "en" then [EnRow(t)] else []
  {
    assert [t][..0] == [];
  }

  /** The language codes and translation ids of one key, appended in lock-step. */
  datatype IdsOfKey = IdsOfKey(languages: seq<string>, ids: seq<string>)

  /** `all_translations`: key id to its codes and ids, keys in first-seen order. */
  type Grouped = OMap<string, IdsOfKey>

  function Group(ts: seq<Translation>): Grouped {
    if |ts| == 0 then []
    else
      var acc := Group(ts[..|ts| - 1]);
      var t := ts[|ts| - 1];
      var g := GetOr(acc, t.keyId, IdsOfKey([], []));
      Put(acc, t.keyId, IdsOfKey(g.languages + [t.languageIso], g.ids + [t.translationId]))
  }

  /** The translations of key `k`, in input order. */
  function OfKey(ts: seq<Translation>, k: string): seq<Translation> {
    if |ts| == 0 then []
    else OfKey(ts[..|ts| - 1], k) + (if ts[|ts| - 1].keyId == k then [ts[|ts| - 1]] else [])
  }

  function Languages(ts: seq<Translation>): (r: seq<string>)
    ensures |r| == |ts| && forall i :: 0 <= i < |ts| ==> r[i] == ts[i].languageIso
  {
    seq(|ts|, i requires 0 <= i < |ts| => ts[i].languageIso)
  }

  function TranslationIds(ts: seq<Translation>): (r: seq<string>)
    ensures |r| == |ts| && forall i :: 0 <= i < |ts| ==> r[i] == ts[i].translationId
  {
    seq(|ts|, i requires 0 <= i < |ts| => ts[i].translationId)
  }

  /** Grouping one more translation touches only its key's lists. */
  lemma GroupSnoc(ts: seq<Translation>, k: string)
    requires |ts| > 0
    ensures var init := ts[..|ts| - 1]; var t := ts[|ts| - 1];
      (HasKey(Group(ts), k) <==> HasKey(Group(init), k) || t.keyId == k)
      && GetOr(Group(ts), k, IdsOfKey([], [])) ==
         (var g := GetOr(Group(init), k, IdsOfKey([], []));
          if t.keyId == k then IdsOfKey(g.languages + [t.languageIso], g.ids + [t.translationId]) else g)
  {
    var init := ts[..|ts| - 1];
    var t := ts[|ts| - 1];
    var acc := Group(init);
    var g := GetOr(acc, t.keyId, IdsOfKey([], []));
    var v := IdsOfKey(g.languages + [t.languageIso], g.ids + [t.translationId]);
    assert Group(ts) == Put(acc, t.keyId, v);
  }

  /** Some translation belongs to key `k`. */
  predicate Mentions(ts: seq<Translation>, k: string) {
    exists i :: 0 <= i < |ts| && ts[i].keyId == k
  }

  /** A key is grouped exactly when some translation has it. */
  lemma {:induction false} GroupKeys(ts: seq<Translation>, k: string)
    ensures HasKey(Group(ts), k) <==> Mentions(ts, k)
  {
    if |ts| > 0 {
      var init := ts[..|ts| - 1];
      var last := |ts| - 1;
      GroupKeys(init, k);
      GroupSnoc(ts, k);
      MentionsSnoc(ts, k);
    }
  }

  lemma MentionsSnoc(ts: seq<Translation>, k: string)
    requires |ts| > 0
    ensures Mentions(ts, k) <==> Mentions(ts[..|ts| - 1], k) || ts[|ts| - 1].keyId == k
  {
    var init := ts[..|ts| - 1];
    if Mentions(init, k) {
      var i :| 0 <= i < |init| && init[i].keyId == k;
      assert ts[i].keyId == k;
    }
    if Mentions(ts, k) {
      var i :| 0 <= i < |ts| && ts[i].keyId == k;
      if i < |init| { assert init[i].keyId == k; }
    }
  }

  /**
   * The two lists of a key are the codes and the ids of its translations,
   * in input order, so they always have the same length and pair up
   * position by position.
   */
  lemma {:induction false} GroupLists(ts: seq<Translation>, k: string)
    ensures GetOr(Group(ts), k, IdsOfKey([], [])) == IdsOfKey(Languages(OfKey(ts, k)), TranslationIds(OfKey(ts, k)))
  {
    if |ts| > 0 {
      var init := ts[..|ts| - 1];
      var t := ts[|ts| - 1];
      GroupLists(init, k);
      GroupSnoc(ts, k);
      var of := OfKey(init, k);
      if t.keyId == k {
        assert OfKey(ts, k) == of + [t];
        ListsSnoc(of, t);
      } else {
        assert OfKey(ts, k) == of;
      }
    }
  }

  lemma ListsSnoc(of: seq<Translation>, t: Translation)
    ensures Languages(of + [t]) == Languages(of) + [t.languageIso]
    ensures TranslationIds(of + [t]) == TranslationIds(of) + [t.translationId]
  {
    assert Languages(of + [t]) == Languages(of) + [t.languageIso];
    assert TranslationIds(of + [t]) == TranslationIds(of) + [t.translationId];
  }

  /** `all_translation_ids.csv`: key id, codes joined by ",", ids joined by ",". */
  function IdRows(groups: Grouped): (rows: seq<seq<string>>)
    ensures |rows| == |groups| + 1 && rows[0] == ["key_id", "language_iso", "translation_id"]
    ensures forall i :: 0 <= i < |groups| ==>
      rows[i + 1] == [groups[i].0, Join(groups[i].1.languages, ","), Join(groups[i].1.ids, ",")]
  {
    [["key_id", "language_iso", "translation_id"]]
    + seq(|groups|, i requires 0 <= i < |groups| => [groups[i].0, Join(groups[i].1.languages, ","), Join(groups[i].1.ids, ",")])
  }

  /** `save_translations`: the English rows and the grouped id rows. */
  method SaveTranslations(ts: seq<Translation>) returns (enFile: seq<seq<string>>, idsFile: seq<seq<string>>)
    ensures enFile == [["key_id", "translation_id", "translation"]] + EnRows(ts)
    ensures idsFile == IdRows(Group(ts))
  {
    var en := EnglishRows(ts);
    enFile := [["key_id", "translation_id", "translation"]] + en;
    var groups := GroupByKey(ts);
    idsFile := IdRows(groups);
  }

  /** The loop writing `en_translations.csv`. */
  method EnglishRows(ts: seq<Translation>) returns (en: seq<seq<string>>)
    ensures en == EnRows(ts)
  {
    en := [];
    for i := 0 to |ts|
      invariant en == EnRows(ts[..i])
    {
      assert ts[..i + 1][..i] == ts[..i];
      if ts[i].languageIso == "en" {
        en := en + [EnRow(ts[i])];
      }
    }
    assert ts[..|ts|] == ts;
  }

  /** The loop filling `all_translations`. */
  method GroupByKey(ts: seq<Translation>) returns (groups: Grouped)
    ensures groups == Group(ts)
  {
    groups := [];
    for i := 0 to |ts|
      invariant groups == Group(ts[..i])
    {
      assert ts[..i + 1][..i] == ts[..i];
      var t := ts[i];
      var g := GetOr(groups, t.keyId, IdsOfKey([], []));
      groups := Put(groups, t.keyId, IdsOfKey(g.languages + [t.languageIso], g.ids + [t.translationId]));
    }
    assert ts[..|ts|] == ts;
  }

  /** A key object of the API: its id and its per-platform names, in the JSON's order. */
  datatype LokaliseKey = LokaliseKey(keyId: string, keyName: seq<(string, string)>)

  /** `next(iter(key_name.values()), '')`. */
  function FirstName(k: LokaliseKey): (name: string)
    ensures |k.keyName| == 0 ==> name == ""
    ensures |k.keyName| > 0 ==> name == k.keyName[0].1
  {
    if |k.keyName| == 0 then "" else k.keyName[0].1
  }

  /** `save_keys_to_csv`: the header, then one `[key_id, first name]` row per key, in order. */
  method SaveKeysToCsv(keys: seq<LokaliseKey>) returns (rows: seq<seq<string>>)
    ensures |rows| == |keys| + 1 && rows[0] == ["key_id", "key_name"]
    ensures forall i :: 0 <= i < |keys| ==> rows[i + 1] == [keys[i].keyId, FirstName(keys[i])]
  {
    rows := [["key_id", "key_name"]];
    for i := 0 to |keys|
      invariant |rows| == i + 1 && rows[0] == ["key_id", "key_name"]
      invariant forall j :: 0 <= j < i ==> rows[j + 1] == [keys[j].keyId, FirstName(keys[j])]
    {
      rows := rows + [[keys[i].keyId, FirstName(keys[i])]];
    }
  }

  /** A row of `lokalise_keys.csv`. */
  datatype KeyRow = KeyRow(keyId: string, keyName: string)

  /** `keys_dict`: key name to key id, a later row for a name winning. */
  function KeysDict(rows: seq<KeyRow>): map<string, string> {
    if |rows| == 0 then map[]
    else
      var r := rows[|rows| - 1];
      KeysDict(rows[..|rows| - 1])[r.keyName := r.keyId]
  }

  /** Row `i` is the last one with name `name`. */
  predicate LastNamed(rows: seq<KeyRow>, i: int, name: string) {
    0 <= i < |rows| && rows[i].keyName == name && forall j :: i < j < |rows| ==> rows[j].keyName != name
  }

  /** A name maps to the id of the last row with that name; names of no row are absent. */
  lemma KeysDictLastWins(rows: seq<KeyRow>, name: string)
    ensures name in KeysDict(rows) <==> exists i :: 0 <= i < |rows| && rows[i].keyName == name
    ensures forall i :: LastNamed(rows, i, name) ==> KeysDict(rows)[name] == rows[i].keyId
  {
    KeysDictNames(rows, name);
    forall i | LastNamed(rows, i, name) ensures KeysDict(rows)[name] == rows[i].keyId {
      KeysDictLast(rows, name, i);
    }
  }

  lemma {:induction false} KeysDictNames(rows: seq<KeyRow>, name: string)
    ensures name in KeysDict(rows) <==> exists i :: 0 <= i < |rows| && rows[i].keyName == name
  {
    if |rows| > 0 {
      var init := rows[..|rows| - 1];
      KeysDictNames(init, name);
      if exists i :: 0 <= i < |init| && init[i].keyName == name {
        var i :| 0 <= i < |init| && init[i].keyName == name;
        assert rows[i] == init[i];
      }
      if exists i :: 0 <= i < |rows| && rows[i].keyName == name {
        var i :| 0 <= i < |rows| && rows[i].keyName == name;
        if i < |init| { assert init[i] == rows[i]; }
      }
    }
  }

  lemma {:induction false} KeysDictLast(rows: seq<KeyRow>, name: string, i: int)
    requires LastNamed(rows, i, name)
    ensures name in KeysDict(rows) && KeysDict(rows)[name] == rows[i].keyId
  {
    var last := |rows| - 1;
    if i < last {
      var init := rows[..last];
      assert rows[last].keyName != name;
      assert forall j :: i <= j < last ==> init[j] == rows[j];
      KeysDictLast(init, name, i);
    }
  }

  /** One output row: the name, its key id or '', then the rest of the missing row. */
  function JoinedRow(keysDict: map<string, string>, row: seq<string>): seq<string>
    requires |row| > 0
  {
    [row[0], if row[0] in keysDict then keysDict[row[0]] else ""] + row[1..]
  }

  /**
   * `merge_keys_with_missing_translations`: nothing is written when either
   * input file is absent; otherwise the header and one joined row per
   * missing row, up to the first row without fields (where `row[0]` raises).
   */
  function MergeKeysSpec(keysFile: Option<seq<KeyRow>>, missingFile: Option<seq<seq<string>>>): Option<seq<seq<string>>> {
    if keysFile.None? || missingFile.None? then None
    else
      var rows := missingFile.value;
      var n := FirstEmpty(rows);
      var d := KeysDict(keysFile.value);
      Some([["key_name", "key_id", "languages"]] + seq(n, i requires 0 <= i < n => JoinedRow(d, rows[i])))
  }

  method MergeKeysWithMissingTranslations(keysFile: Option<seq<KeyRow>>, missingFile: Option<seq<seq<string>>>)
    returns (merged: Option<seq<seq<string>>>)
    ensures merged == MergeKeysSpec(keysFile, missingFile)
  {
    if keysFile.None? { return None; }
    var keysDict: map<string, string> := map[];
    var keyRows := keysFile.value;
    for i := 0 to |keyRows|
      invariant keysDict == KeysDict(keyRows[..i])
    {
      assert keyRows[..i + 1][..i] == keyRows[..i];
      keysDict := keysDict[keyRows[i].keyName := keyRows[i].keyId];
    }
    assert keyRows[..|keyRows|] == keyRows;
    if missingFile.None? { return None; }
    var rows := missingFile.value;
    var out: seq<seq<string>> := [["key_name", "key_id", "languages"]];
    var i := 0;
    while i < |rows|
      invariant i <= FirstEmpty(rows)
      invariant out == [["key_name", "key_id", "languages"]] + seq(i, j requires 0 <= j < i => JoinedRow(keysDict, rows[j]))
    {
      if |rows[i]| == 0 {
        break;
      }
      assert i < FirstEmpty(rows);
      var keyName := rows[i][0];
      var keyId := if keyName in keysDict then keysDict[keyName] else "";
      out := out + [[keyName, keyId] + rows[i][1..]];
      i := i + 1;
    }
    assert i == FirstEmpty(rows);
    merged := Some(out);
  }

  /** Each missing row keeps its name and codes and gains the id of the last key row with its name. */
  lemma JoinedRowFields(keyRows: seq<KeyRow>, row: seq<string>, i: nat)
    requires |row| > 0 && LastNamed(keyRows, i, row[0])
    ensures JoinedRow(KeysDict(keyRows), row) == [row[0], keyRows[i].keyId] + row[1..]
  {
    KeysDictLastWins(keyRows, row[0]);
  }

  /** A missing row whose name no key row has gets an empty id. */
  lemma JoinedRowUnknown(keyRows: seq<KeyRow>, row: seq<string>)
    requires |row| > 0 && forall i :: 0 <= i < |keyRows| ==> keyRows[i].keyName != row[0]
    ensures JoinedRow(KeysDict(keyRows), row) == [row[0], ""] + row[1..]
  {
    KeysDictLastWins(keyRows, row[0]);
  }
}
