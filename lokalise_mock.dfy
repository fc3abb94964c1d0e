/**
 * The in-memory stand-in for the Lokalise REST API that the tests use: a
 * store of keys (each with one translation per locale), a request counter,
 * and a switch that makes every API call raise after it has been counted.
 */
module LokaliseMock {
  import opened Wrappers
  import opened OrderedMaps

  datatype Translation = Translation(translationId: string, translation: string, isReviewed: bool)

  /** A stored key; the store itself is indexed by the key id. */
  datatype KeyData = KeyData(keyName: string, description: string, platforms: seq<string>,
                             translations: OMap<string, Translation>)

  /** `keys`: key id to key, in insertion order. */
  type Store = OMap<string, KeyData>

  const MockFailure := "Mock API failure"
  const DivisionByZero := "integer division or modulo by zero"

  /** Key ids are distinct, and so are the locales of every key. */
  ghost predicate WellFormed(s: Store) {
    Valid(s) && forall e :: e in s ==> Valid(e.1.translations)
  }

  /** The three sample keys every fresh or reset mock holds. */
  const DefaultKeys: Store := [
    ("123", KeyData("ms_test_key_1", "Test key 1", ["ios", "android"], [
      ("en", Translation("456", "Hello", true)),
      ("it", Translation("457", "Ciao", true)),
      ("de", Translation("458", "", false))])),
    ("124", KeyData("ms_test_key_2", "Test key 2", ["ios"], [
      ("en", Translation("459", "Goodbye", true)),
      ("it", Translation("460", "", false)),
      ("de", Translation("461", "", false))])),
    ("125", KeyData("ms_softpos_test", "SoftPOS test key", ["android"], [
      ("en", Translation("462", "Soft POS", true)),
      ("el", Translation("463", "", false))]))
  ]

  lemma DefaultKeysWellFormed()
    ensures WellFormed(DefaultKeys)
    ensures Keys(DefaultKeys) == ["123", "124", "125"]
  {
    DefaultKeyIds();
    forall e | e in DefaultKeys ensures Valid(e.1.translations) {
      assert e == DefaultKeys[0] || e == DefaultKeys[1] || e == DefaultKeys[2];
      DefaultLocales(e);
    }
  }

  lemma DefaultKeyIds()
    ensures Keys(DefaultKeys) == ["123", "124", "125"]
    ensures Valid(DefaultKeys)
  {
  }

  lemma DefaultLocales(e: (string, KeyData))
    requires e == DefaultKeys[0] || e == DefaultKeys[1] || e == DefaultKeys[2]
    ensures Valid(e.1.translations)
  {
  }

  /** The translation a key holds for a locale, if both exist. */
  function TranslationAt(s: Store, keyId: string, locale: string): Option<Translation> {
    match Get(s, keyId)
    case Some(k) => Get(k.translations, locale)
    case None => None
  }

  // ---------------------------------------------------------------------
  // Pagination
  // ---------------------------------------------------------------------

  /** Python's clamping of a slice bound against a list of length `n`. */
  function SliceBound(i: int, n: nat): (r: nat)
    ensures r <= n
    ensures 0 <= i <= n ==> r == i
  {
    if i < 0 then (if i + n < 0 then 0 else i + n) else if i > n then n else i
  }

  /** `xs[start:end]`, negative bounds counting from the end. */
  function Slice<T>(xs: seq<T>, start: int, end: int): seq<T> {
    var a := SliceBound(start, |xs|);
    var b := SliceBound(end, |xs|);
    if a < b then xs[a..b] else []
  }

  /** Python's `//`, which rounds toward negative infinity. */
  function FloorDiv(a: int, b: int): int
    requires b != 0
  {
    if b > 0 then a / b else (-a) / (-b)
  }

  datatype Page<T> = Page(projectId: string, items: seq<T>, page: int, totalCount: nat, pageCount: int, limit: int)

  /**
   * The page `page` of `limit` items of `all`; `page_count` divides by
   * `limit`, so a zero limit raises.
   */
  function Paginate<T>(projectId: string, all: seq<T>, page: int, limit: int): (r: Result<Page<T>, string>)
    ensures r.Err? <==> limit == 0
    ensures r.Ok? ==> r.value.totalCount == |all| && r.value.page == page && r.value.limit == limit
  {
    var start := (page - 1) * limit;
    var items := Slice(all, start, start + limit);
    if limit == 0 then Err(DivisionByZero)
    else Ok(Page(projectId, items, page, |all|, FloorDiv(|all| + limit - 1, limit), limit))
  }

  function Min(a: int, b: int): int { if a <= b then a else b }

  /**
   * For positive pages and limits, a page is the window
   * [(page-1)*limit, (page-1)*limit + limit) of the list, cut to its length.
   */
  lemma PageIsWindow<T>(projectId: string, all: seq<T>, page: int, limit: int)
    requires page >= 1 && limit >= 1
    ensures Paginate(projectId, all, page, limit).Ok?
    ensures var start := (page - 1) * limit;
      Paginate(projectId, all, page, limit).value.items == all[Min(start, |all|)..Min(start + limit, |all|)]
  {
    PageStarts(page, limit);
    var start := (page - 1) * limit;
    var n := |all|;
    assert SliceBound(start, n) == Min(start, n);
    assert SliceBound(start + limit, n) == Min(start + limit, n);
  }

  /** The page count is the total divided by the limit, rounded up. */
  lemma PageCountRoundsUp<T>(projectId: string, all: seq<T>, page: int, limit: int)
    requires limit >= 1
    ensures var c := Paginate(projectId, all, page, limit).value.pageCount;
      if |all| == 0 then c == 0 else (c - 1) * limit < |all| <= c * limit
  {
    var n := |all|;
    var q := (n + limit - 1) / limit;
    var rm := (n + limit - 1) % limit;
    assert n + limit - 1 == q * limit + rm && 0 <= rm < limit;
    assert (q - 1) * limit == q * limit - limit;
  }

  /** Pages 1 .. k, one after the other. */
  function Pages<T>(all: seq<T>, k: nat, limit: int): seq<T>
    requires limit >= 1
  {
    if k == 0 then [] else Pages(all, k - 1, limit) + Paginate("", all, k, limit).value.items
  }

  /** Reading pages 1 .. k in turn yields the first k*limit items. */
  lemma {:induction false} PagesTile<T>(all: seq<T>, k: nat, limit: int)
    requires limit >= 1
    ensures Pages(all, k, limit) == all[..Min(k * limit, |all|)]
  {
    if k > 0 {
      PagesTile(all, k - 1, limit);
      PageIsWindow("", all, k, limit);
      PageStarts(k, limit);
      var start := (k - 1) * limit;
      PrefixThenWindow(all, Min(start, |all|), Min(start + limit, |all|));
    }
  }

  lemma PrefixThenWindow<T>(all: seq<T>, lo: nat, hi: nat)
    requires lo <= hi <= |all|
    ensures all[..lo] + all[lo..hi] == all[..hi]
  {
  }

  /** Page `k` starts where page `k - 1` ends. */
  lemma PageStarts(k: int, limit: int)
    requires k >= 1 && limit >= 1
    ensures 0 <= (k - 1) * limit && (k - 1) * limit + limit == k * limit
  {
  }

  /** Reading every page in turn yields the whole list. */
  lemma AllPagesCoverList<T>(all: seq<T>, limit: int)
    requires limit >= 1
    ensures var c := Paginate("", all, 1, limit).value.pageCount;
      c >= 0 && Pages(all, c, limit) == all
  {
    PageCountRoundsUp("", all, 1, limit);
    var c := Paginate("", all, 1, limit).value.pageCount;
    PagesTile(all, c, limit);
  }

  // ---------------------------------------------------------------------
  // download_translations and list_keys
  // ---------------------------------------------------------------------

  datatype TranslationRow = TranslationRow(keyId: string, keyName: string, translationId: string,
                                           translation: string, isReviewed: bool, locale: string)

  /** The row a key contributes to a locale's download, if it has that locale. */
  function RowOf(e: (string, KeyData), locale: string): Option<TranslationRow> {
    match Get(e.1.translations, locale)
    case Some(t) => Some(TranslationRow(e.0, e.1.keyName, t.translationId, t.translation, t.isReviewed, locale))
    case None => None
  }

  /** The `Some` results of `f` over `xs`, in order. */
  function Collect<A, B>(xs: seq<A>, f: A -> Option<B>): (r: seq<B>)
    ensures |r| <= |xs|
  {
    if |xs| == 0 then []
    else
      var init := Collect(xs[..|xs| - 1], f);
      match f(xs[|xs| - 1])
      case Some(y) => init + [y]
      case None => init
  }

  /** A value is collected exactly when some element yields it. */
  lemma {:induction false} CollectExact<A, B>(xs: seq<A>, f: A -> Option<B>, y: B)
    ensures y in Collect(xs, f) <==> exists i :: 0 <= i < |xs| && f(xs[i]) == Some(y)
  {
    if |xs| > 0 {
      var init := xs[..|xs| - 1];
      CollectExact(init, f, y);
      assert forall i :: 0 <= i < |init| ==> init[i] == xs[i];
      assert xs == init + [xs[|xs| - 1]];
    }
  }

  function RowsFor(locale: string): ((string, KeyData)) -> Option<TranslationRow> {
    e => RowOf(e, locale)
  }

  /** The rows of every key that has the locale, in key order. */
  function LocaleRows(keys: Store, locale: string): (r: seq<TranslationRow>)
    ensures |r| <= |keys|
  {
    Collect(keys, RowsFor(locale))
  }

  /** A row is downloaded exactly when some key contributes it. */
  lemma LocaleRowsExact(keys: Store, locale: string, row: TranslationRow)
    ensures row in LocaleRows(keys, locale) <==> exists i :: 0 <= i < |keys| && RowOf(keys[i], locale) == Some(row)
  {
    CollectExact(keys, RowsFor(locale), row);
  }

  /** A downloaded row reports the key's stored translation for the requested locale. */
  lemma RowReportsTranslation(keys: Store, locale: string, i: nat)
    requires Valid(keys) && i < |keys| && RowOf(keys[i], locale).Some?
    ensures var row := RowOf(keys[i], locale).value;
      row.locale == locale && row.keyId == keys[i].0
      && TranslationAt(keys, row.keyId, locale) == Some(Translation(row.translationId, row.translation, row.isReviewed))
  {
    KeyAt(keys, i);
  }

  datatype KeyInfo = KeyInfo(keyId: string, keyName: string, description: string, platforms: seq<string>,
                             translations: Option<OMap<string, Translation>>)

  function InfoOf(e: (string, KeyData), includeTranslations: bool): KeyInfo {
    KeyInfo(e.0, e.1.keyName, e.1.description, e.1.platforms,
            if includeTranslations then Some(e.1.translations) else None)
  }

  /** Every key's public fields, in key order, with its translations only on request. */
  function KeyList(keys: Store, includeTranslations: bool): (r: seq<KeyInfo>)
    ensures |r| == |keys|
    ensures forall i :: 0 <= i < |keys| ==>
      r[i].keyId == keys[i].0 && r[i].keyName == keys[i].1.keyName
      && (r[i].translations.Some? <==> includeTranslations)
      && (includeTranslations ==> r[i].translations.value == keys[i].1.translations)
  {
    if |keys| == 0 then []
    else KeyList(keys[..|keys| - 1], includeTranslations) + [InfoOf(keys[|keys| - 1], includeTranslations)]
  }

  // ---------------------------------------------------------------------
  // update_translation
  // ---------------------------------------------------------------------

  /** Position of the first translation with id `tid`, or `|ts|` when there is none. */
  function FindTranslation(ts: OMap<string, Translation>, tid: string): (j: nat)
    ensures j <= |ts|
    ensures j < |ts| ==> ts[j].1.translationId == tid
    ensures forall j' :: 0 <= j' < j ==> ts[j'].1.translationId != tid
  {
    if |ts| == 0 then 0
    else if ts[0].1.translationId == tid then 0
    else 1 + FindTranslation(ts[1..], tid)
  }

  predicate Holds(e: (string, KeyData), tid: string) {
    FindTranslation(e.1.translations, tid) < |e.1.translations|
  }

  /** Position of the first key holding a translation with id `tid`, or `|keys|`. */
  function FindKey(keys: Store, tid: string): (i: nat)
    ensures i <= |keys|
    ensures i < |keys| ==> Holds(keys[i], tid)
    ensures forall i' :: 0 <= i' < i ==> !Holds(keys[i'], tid)
  {
    if |keys| == 0 then 0
    else if Holds(keys[0], tid) then 0
    else 1 + FindKey(keys[1..], tid)
  }

  datatype UpdateReply = UpdateReply(projectId: string, translationId: string, translation: string,
                                     locale: string, keyId: string)

  /** The store with the translation at key position `i`, locale position `j` given new text and marked unreviewed. */
  function Retranslated(keys: Store, i: nat, j: nat, text: string): Store
    requires i < |keys| && j < |keys[i].1.translations|
  {
    var k := keys[i].1;
    var t := k.translations[j];
    keys[i := (keys[i].0, k.(translations := k.translations[j := (t.0, t.1.(translation := text, isReviewed := false))]))]
  }

  /** The reply and the new store: the first matching translation changes, or the call raises. */
  function UpdateSpec(keys: Store, projectId: string, tid: string, text: string): (Result<UpdateReply, string>, Store) {
    var i := FindKey(keys, tid);
    if i == |keys| then (Err("Translation ID " + tid + " not found"), keys)
    else
      var j := FindTranslation(keys[i].1.translations, tid);
      (Ok(UpdateReply(projectId, tid, text, keys[i].1.translations[j].0, keys[i].0)), Retranslated(keys, i, j, text))
  }

  /**
   * A successful update changes only the translation it reports: that
   * one gets the new text and loses its review flag, keeps its id, and
   * every other key and locale reads back as before. A failed update
   * changes nothing, and it fails only when no key holds the id.
   */
  lemma UpdateTouchesOnlyMatch(keys: Store, projectId: string, tid: string, text: string, keyId: string, locale: string)
    requires WellFormed(keys)
    ensures var (r, after) := UpdateSpec(keys, projectId, tid, text);
      WellFormed(after) && Keys(after) == Keys(keys)
      && (r.Err? <==> forall i :: 0 <= i < |keys| ==> !Holds(keys[i], tid))
      && (r.Err? ==> after == keys)
      && (r.Ok? ==>
            var old_ := TranslationAt(keys, r.value.keyId, r.value.locale);
            old_.Some? && old_.value.translationId == tid
            && TranslationAt(after, keyId, locale) ==
                 if keyId == r.value.keyId && locale == r.value.locale
                 then Some(old_.value.(translation := text, isReviewed := false))
                 else TranslationAt(keys, keyId, locale))
  {
    var i := FindKey(keys, tid);
    if i < |keys| {
      var k := keys[i].1;
      var j := FindTranslation(k.translations, tid);
      var t := k.translations[j];
      var nt := t.1.(translation := text, isReviewed := false);
      var k' := k.(translations := k.translations[j := (t.0, nt)]);
      var after := Retranslated(keys, i, j, text);
      assert keys[i] in keys;
      GetReplaced(keys, i, k', keyId);
      GetReplaced(k.translations, j, nt, locale);
      assert Get(keys, keys[i].0) == Some(k) by { KeyAt(keys, i); }
      assert Get(k.translations, t.0) == Some(t.1) by { KeyAt(k.translations, j); }
      GetReplaced(k.translations, j, nt, t.0);
      forall e | e in after ensures Valid(e.1.translations) {
        var n :| 0 <= n < |after| && after[n] == e;
        if n != i { assert keys[n] in keys; }
      }
      if keyId == keys[i].0 {
        assert TranslationAt(after, keyId, locale) == Get(k'.translations, locale);
      }
    }
  }

  // ---------------------------------------------------------------------
  // delete_keys
  // ---------------------------------------------------------------------

  /** The store after deleting `ids` in turn, and the ids actually deleted, in order. */
  function DeleteSpec(keys: Store, ids: seq<string>): (Store, seq<string>) {
    if |ids| == 0 then (keys, [])
    else
      var (s, d) := DeleteSpec(keys, ids[..|ids| - 1]);
      var id := ids[|ids| - 1];
      if HasKey(s, id) then (Remove(s, id), d + [id]) else (s, d)
  }

  /**
   * `delete_keys` removes exactly the listed ids that exist, ignores the
   * others, leaves every remaining key as it was, and reports each
   * deleted id once.
   */
  lemma {:induction false} DeleteKeysExact(keys: Store, ids: seq<string>)
    requires WellFormed(keys)
    ensures var (s, d) := DeleteSpec(keys, ids);
      WellFormed(s)
      && (forall k :: HasKey(s, k) <==> HasKey(keys, k) && k !in ids)
      && (forall k :: HasKey(s, k) ==> Get(s, k) == Get(keys, k))
      && (forall k :: k in d <==> HasKey(keys, k) && k in ids)
      && (forall a, b :: 0 <= a < b < |d| ==> d[a] != d[b])
  {
    if |ids| > 0 {
      var init := ids[..|ids| - 1];
      DeleteKeysExact(keys, init);
      var (s, d) := DeleteSpec(keys, init);
      var id := ids[|ids| - 1];
      assert forall k :: k in ids <==> k in init || k == id;
      if HasKey(s, id) {
        RemoveEntries(s, id);
        var s' := Remove(s, id);
        forall k ensures HasKey(s', k) <==> HasKey(s, k) && k != id {
          if k != id { assert Get(s', k) == Get(s, k); }
        }
      }
    }
  }

  // ---------------------------------------------------------------------
  // add_key
  // ---------------------------------------------------------------------

  function TransId(keyId: string, locale: string): string {
    "trans_" + keyId + "_" + locale
  }

  /** The translations `add_key` builds from a locale-to-text dictionary, set one locale at a time. */
  function AddedTranslations(keyId: string, texts: OMap<string, string>): (r: OMap<string, Translation>)
    ensures Valid(r)
  {
    if |texts| == 0 then []
    else
      var (locale, text) := texts[|texts| - 1];
      Put(AddedTranslations(keyId, texts[..|texts| - 1]), locale, Translation(TransId(keyId, locale), text, text != ""))
  }

  /** The key `add_key` stores; no dictionary and an empty one both give no translations. */
  function NewKey(keyId: string, keyName: string, texts: Option<OMap<string, string>>): KeyData {
    KeyData(keyName, "Test key " + keyName, ["ios", "android"],
            match texts case Some(ts) => AddedTranslations(keyId, ts) case None => [])
  }

  /** Each given locale gets id `trans_{key_id}_{locale}`, its text, and a review flag set exactly when the text is non-empty. */
  lemma {:induction false} AddedTranslationsGet(keyId: string, texts: OMap<string, string>, locale: string)
    requires Valid(texts)
    ensures Get(AddedTranslations(keyId, texts), locale) ==
      match Get(texts, locale)
      case Some(text) => Some(Translation(TransId(keyId, locale), text, text != ""))
      case None => None
  {
    if |texts| > 0 {
      var init := texts[..|texts| - 1];
      var e := texts[|texts| - 1];
      assert texts == init + [e];
      AddedTranslationsGet(keyId, init, locale);
      GetSnoc(init, e, locale);
    }
  }

  /** Storing a key whose locales are distinct keeps the store well formed. */
  lemma PutWellFormed(keys: Store, keyId: string, k: KeyData)
    requires WellFormed(keys) && Valid(k.translations)
    ensures WellFormed(Put(keys, keyId, k))
  {
    var after := Put(keys, keyId, k);
    forall e | e in after ensures Valid(e.1.translations) {
      var n :| 0 <= n < |after| && after[n] == e;
      assert Get(after, e.0) == Some(e.1);
      if e.0 != keyId {
        assert Get(keys, e.0) == Some(e.1);
        var m :| 0 <= m < |keys| && keys[m] == (e.0, e.1);
        assert keys[m] in keys;
      }
    }
  }

  /** `add_key` overwrites or appends one key and leaves every other key as it was. */
  lemma AddKeyReadsBack(keys: Store, keyId: string, keyName: string, texts: Option<OMap<string, string>>,
                        k: string, locale: string)
    requires texts.Some? ==> Valid(texts.value)
    ensures TranslationAt(Put(keys, keyId, NewKey(keyId, keyName, texts)), k, locale) ==
      if k != keyId then TranslationAt(keys, k, locale)
      else match texts
        case Some(ts) => (match Get(ts, locale)
                          case Some(text) => Some(Translation(TransId(keyId, locale), text, text != ""))
                          case None => None)
        case None => None
  {
    if texts.Some? { AddedTranslationsGet(keyId, texts.value, locale); }
  }

  /** The loop of `add_key` that fills in the new key's translations. */
  method BuildTranslations(keyId: string, texts: OMap<string, string>) returns (ts: OMap<string, Translation>)
    ensures ts == AddedTranslations(keyId, texts)
    ensures Valid(ts)
  {
    ts := [];
    var i := 0;
    while i < |texts|
      invariant 0 <= i <= |texts|
      invariant ts == AddedTranslations(keyId, texts[..i])
    {
      assert texts[..i + 1][..i] == texts[..i];
      var locale := texts[i].0;
      var text := texts[i].1;
      ts := Put(ts, locale, Translation(TransId(keyId, locale), text, text != ""));
      i := i + 1;
    }
    assert texts[..|texts|] == texts;
  }

  /** The nested scan over keys and their translations that finds the first translation with id `tid`. */
  method LocateTranslation(keys: Store, tid: string) returns (i: nat, j: nat)
    ensures i == FindKey(keys, tid)
    ensures i < |keys| ==> j == FindTranslation(keys[i].1.translations, tid)
  {
    i := 0;
    j := 0;
    while i < |keys|
      invariant 0 <= i <= |keys|
      invariant forall i' :: 0 <= i' < i ==> !Holds(keys[i'], tid)
    {
      var ts := keys[i].1.translations;
      j := 0;
      while j < |ts|
        invariant 0 <= j <= |ts|
        invariant forall j' :: 0 <= j' < j ==> ts[j'].1.translationId != tid
      {
        if ts[j].1.translationId == tid {
          assert FindTranslation(ts, tid) == j;
          assert FindKey(keys, tid) == i;
          return;
        }
        j := j + 1;
      }
      assert FindTranslation(ts, tid) == |ts|;
      i := i + 1;
    }
  }

  // ---------------------------------------------------------------------
  // The mock client
  // ---------------------------------------------------------------------

  class MockLokaliseAPI {
    var keys: Store
    var requestCount: nat
    var shouldFail: bool

    ghost predicate Valid()
      reads this
    {
      WellFormed(keys)
    }

    constructor ()
      ensures Valid()
      ensures keys == DefaultKeys && requestCount == 0 && !shouldFail
    {
      DefaultKeysWellFormed();
      keys := DefaultKeys;
      requestCount := 0;
      shouldFail := false;
    }

    /** Counts the request, then raises in failure mode; otherwise pages through the locale's translations. */
    method DownloadTranslations(projectId: string, locale: string, page: int, limit: int)
      returns (r: Result<Page<TranslationRow>, string>)
      requires Valid()
      modifies this
      ensures Valid() && keys == old(keys) && shouldFail == old(shouldFail)
      ensures requestCount == old(requestCount) + 1
      ensures r == if shouldFail then Err(MockFailure) else Paginate(projectId, LocaleRows(keys, locale), page, limit)
    {
      requestCount := requestCount + 1;
      if shouldFail {
        return Err(MockFailure);
      }
      var rows: seq<TranslationRow> := [];
      var i := 0;
      while i < |keys|
        invariant 0 <= i <= |keys|
        invariant rows == LocaleRows(keys[..i], locale)
      {
        assert keys[..i + 1][..i] == keys[..i];
        var row := RowOf(keys[i], locale);
        if row.Some? {
          rows := rows + [row.value];
        }
        i := i + 1;
      }
      assert keys[..|keys|] == keys;
      r := Paginate(projectId, rows, page, limit);
    }

    /** Counts the request, then raises in failure mode; otherwise pages through all keys. */
    method ListKeys(projectId: string, page: int, limit: int, includeTranslations: bool)
      returns (r: Result<Page<KeyInfo>, string>)
      requires Valid()
      modifies this
      ensures Valid() && keys == old(keys) && shouldFail == old(shouldFail)
      ensures requestCount == old(requestCount) + 1
      ensures r == if shouldFail then Err(MockFailure) else Paginate(projectId, KeyList(keys, includeTranslations), page, limit)
    {
      requestCount := requestCount + 1;
      if shouldFail {
        return Err(MockFailure);
      }
      var infos: seq<KeyInfo> := [];
      var i := 0;
      while i < |keys|
        invariant 0 <= i <= |keys|
        invariant infos == KeyList(keys[..i], includeTranslations)
      {
        assert keys[..i + 1][..i] == keys[..i];
        infos := infos + [InfoOf(keys[i], includeTranslations)];
        i := i + 1;
      }
      assert keys[..|keys|] == keys;
      r := Paginate(projectId, infos, page, limit);
    }

    /** Counts the request, then raises in failure mode; otherwise rewrites the first translation with the id. */
    method UpdateTranslation(projectId: string, translationId: string, translation: string)
      returns (r: Result<UpdateReply, string>)
      requires Valid()
      modifies this
      ensures Valid() && shouldFail == old(shouldFail)
      ensures requestCount == old(requestCount) + 1
      ensures shouldFail ==> r == Err(MockFailure) && keys == old(keys)
      ensures !shouldFail ==> (r, keys) == UpdateSpec(old(keys), projectId, translationId, translation)
    {
      requestCount := requestCount + 1;
      if shouldFail {
        return Err(MockFailure);
      }
      UpdateTouchesOnlyMatch(keys, projectId, translationId, translation, "", "");
      var i, j := LocateTranslation(keys, translationId);
      if i < |keys| {
        var e := keys[i];
        r := Ok(UpdateReply(projectId, translationId, translation, e.1.translations[j].0, e.0));
        keys := Retranslated(keys, i, j, translation);
      } else {
        r := Err("Translation ID " + translationId + " not found");
      }
    }

    /** Counts the request, then raises in failure mode; otherwise deletes the listed ids that exist. */
    method DeleteKeys(projectId: string, keyIds: seq<string>) returns (r: Result<(string, nat, seq<string>), string>)
      requires Valid()
      modifies this
      ensures Valid() && shouldFail == old(shouldFail)
      ensures requestCount == old(requestCount) + 1
      ensures shouldFail ==> r == Err(MockFailure) && keys == old(keys)
      ensures !shouldFail ==>
        var (s, d) := DeleteSpec(old(keys), keyIds);
        keys == s && r == Ok((projectId, |d|, d))
    {
      requestCount := requestCount + 1;
      if shouldFail {
        return Err(MockFailure);
      }
      var ks := keys;
      var deleted: seq<string> := [];
      var i := 0;
      while i < |keyIds|
        invariant 0 <= i <= |keyIds|
        invariant (ks, deleted) == DeleteSpec(keys, keyIds[..i])
      {
        assert keyIds[..i + 1][..i] == keyIds[..i];
        var id := keyIds[i];
        if HasKey(ks, id) {
          ks := Remove(ks, id);
          deleted := deleted + [id];
        }
        i := i + 1;
      }
      assert keyIds[..|keyIds|] == keyIds;
      DeleteKeysExact(keys, keyIds);
      keys := ks;
      r := Ok((projectId, |deleted|, deleted));
    }

    /** Stores a key with the given translations; a test helper, so it is neither counted nor failed. */
    method AddKey(keyId: string, keyName: string, translations: Option<OMap<string, string>>)
      requires Valid()
      requires translations.Some? ==> OrderedMaps.Valid(translations.value)
      modifies this
      ensures Valid()
      ensures keys == Put(old(keys), keyId, NewKey(keyId, keyName, translations))
      ensures requestCount == old(requestCount) && shouldFail == old(shouldFail)
    {
      var ts: OMap<string, Translation> := [];
      if translations.Some? {
        ts := BuildTranslations(keyId, translations.value);
      }
      var k := KeyData(keyName, "Test key " + keyName, ["ios", "android"], ts);
      assert k == NewKey(keyId, keyName, translations);
      PutWellFormed(keys, keyId, k);
      keys := Put(keys, keyId, k);
    }

    /** Back to the three sample keys, no requests counted, failure mode off. */
    method Reset()
      modifies this
      ensures Valid()
      ensures keys == DefaultKeys && requestCount == 0 && !shouldFail
    {
      DefaultKeysWellFormed();
      keys := DefaultKeys;
      requestCount := 0;
      shouldFail := false;
    }

    method SetFailureMode(fail: bool)
      modifies this
      ensures shouldFail == fail
      ensures keys == old(keys) && requestCount == old(requestCount)
    {
      shouldFail := fail;
    }
  }
}
