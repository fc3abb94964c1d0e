/**
 * The upload step (`lokalise_translation_manager/utils/upload_translations.py`):
 * every row of `translation_done.csv` is checked for matching language, id
 * and translation counts, and each (language, id, translation) triple with
 * an id is sent as one PUT; responses other than 200 are recorded as
 * failures, and the client pauses for a second after every sixth request.
 * The Lokalise API is an oracle `put`: `put(n)` is the response to the
 * n-th request of the run (counting from 0).
 */
module UploadTranslations {
  import opened Wrappers
  import opened Text

  const RateLimit: nat := 6

  /** A row of `translation_done.csv`. */
  datatype DoneRow = DoneRow(keyName: string, keyId: string, languages: string, translationId: string, translated: string)

  /** The parts of one row: the three split columns. */
  datatype Parts = Parts(languages: seq<string>, ids: seq<string>, translations: seq<string>)

  /** `row['languages'].split(',')`, `row['translation_id'].split(',')`, `row['translated'].split('|')`. */
  function PartsOf(row: DoneRow): Parts {
    Parts(Split(row.languages, ","), Split(row.translationId, ","), Split(row.translated, "|"))
  }

  predicate Matching(p: Parts) {
    |p.languages| == |p.ids| == |p.translations|
  }

  /** The response to a PUT: its status and, on 200, the `modified_at` stamp. */
  datatype PutReply = PutReply(status: int, modifiedAt: string)

  /** The request body: target translation id and text (project and token are fixed for the run). */
  datatype PutRequest = PutRequest(translationId: string, translation: string)

  datatype ReportRow = ReportRow(keyId: string, keyName: string, languageIso: string, translationId: string, newTranslation: string, modifiedAt: string)
  datatype FailedRow = FailedRow(keyId: string, keyName: string, languageIso: string, translationId: string, newTranslation: string, statusCode: int)

  /**
   * The loop state: requests sent, the three counters (`request_count` is
   * |requests|), the two report lists and the request counts at which the
   * client slept.
   */
  datatype Upload = Upload(requests: seq<PutRequest>, success: nat, failure: nat,
                           report: seq<ReportRow>, failed: seq<FailedRow>, pauses: seq<nat>)

  /**
   * One triple of a row, each value cleaned by `strip` (`str.strip` in the
   * run): a failure without a request when the id is empty, else one PUT.
   */
  function Triple(st: Upload, row: DoneRow, lang: string, tid: string, text: string, put: nat -> PutReply, strip: string -> string): Upload {
    var lang := strip(lang);
    var tid := strip(tid);
    var text := strip(text);
    if tid == "" then st.(failure := st.failure + 1)
    else
      var reply := put(|st.requests|);
      var requests := st.requests + [PutRequest(tid, text)];
      var pauses := if |requests| % RateLimit == 0 then st.pauses + [|requests|] else st.pauses;
      if reply.status == 200 then
        Upload(requests, st.success + 1, st.failure,
               st.report + [ReportRow(row.keyId, row.keyName, lang, tid, text, reply.modifiedAt)], st.failed, pauses)
      else
        Upload(requests, st.success, st.failure + 1,
               st.report, st.failed + [FailedRow(row.keyId, row.keyName, lang, tid, text, reply.status)], pauses)
  }

  /** The first `n` triples of a matching row. */
  function Triples(st: Upload, row: DoneRow, p: Parts, n: nat, put: nat -> PutReply, strip: string -> string): Upload
    requires Matching(p) && n <= |p.languages|
  {
    if n == 0 then st
    else Triple(Triples(st, row, p, n - 1, put, strip), row, p.languages[n - 1], p.ids[n - 1], p.translations[n - 1], put, strip)
  }

  /** One row: a count mismatch fails every language of the row without a request. */
  function RowStep(st: Upload, row: DoneRow, p: Parts, put: nat -> PutReply, strip: string -> string): Upload {
    if !Matching(p) then st.(failure := st.failure + |p.languages|)
    else Triples(st, row, p, |p.languages|, put, strip)
  }

  /** The row loop over the first |rows| rows, each split by `parts`. */
  function UploadWith(rows: seq<DoneRow>, parts: DoneRow -> Parts, put: nat -> PutReply, strip: string -> string): Upload {
    if |rows| == 0 then Upload([], 0, 0, [], [], [])
    else
      var row := rows[|rows| - 1];
      RowStep(UploadWith(rows[..|rows| - 1], parts, put, strip), row, parts(row), put, strip)
  }

  /** How `update_translations` ends. */
  datatype UploadRun =
    | ConfigMissing             // `load_lokalise_config` raises before anything is read
    | NoInputFile               // `translation_done.csv` is absent: nothing is sent
    | EmptyInput                // the file has no rows: nothing is sent
    | Uploaded(result: Upload)  // the rows were processed

  function UpdateSpec(configured: bool, doneFile: Option<seq<DoneRow>>, put: nat -> PutReply): UploadRun {
    if !configured then ConfigMissing
    else if doneFile.None? then NoInputFile
    else if |doneFile.value| == 0 then EmptyInput
    else Uploaded(UploadWith(doneFile.value, PartsOf, put, Strip))
  }

  /** `update_translations`. */
  method UpdateTranslations(configured: bool, doneFile: Option<seq<DoneRow>>, put: nat -> PutReply) returns (run: UploadRun)
    ensures run == UpdateSpec(configured, doneFile, put)
  {
    if !configured {
      return ConfigMissing;
    }
    if doneFile.None? {
      return NoInputFile;
    }
    if |doneFile.value| == 0 {
      return EmptyInput;
    }
    var st := UploadRows(doneFile.value, PartsOf, put, Strip);
    return Uploaded(st);
  }

  /** The loop over the rows of the input file. */
  method UploadRows(rows: seq<DoneRow>, parts: DoneRow -> Parts, put: nat -> PutReply, strip: string -> string) returns (st: Upload)
    ensures st == UploadWith(rows, parts, put, strip)
  {
    st := Upload([], 0, 0, [], [], []);
    for i := 0 to |rows|
      invariant st == UploadWith(rows[..i], parts, put, strip)
    {
      assert rows[..i + 1][..i] == rows[..i];
      var p := parts(rows[i]);
      if !(|p.languages| == |p.ids| == |p.translations|) {
        st := st.(failure := st.failure + |p.languages|);
      } else {
        st := UploadTriples(st, rows[i], p, put, strip);
      }
    }
    assert rows[..|rows|] == rows;
  }

  /** The loop over the zipped triples of one matching row. */
  method UploadTriples(st0: Upload, row: DoneRow, p: Parts, put: nat -> PutReply, strip: string -> string) returns (st: Upload)
    requires Matching(p)
    ensures st == Triples(st0, row, p, |p.languages|, put, strip)
  {
    var requests := st0.requests;
    var success: nat := st0.success;
    var failure: nat := st0.failure;
    var report := st0.report;
    var failed := st0.failed;
    var pauses: seq<nat> := st0.pauses;
    for j := 0 to |p.languages|
      invariant Upload(requests, success, failure, report, failed, pauses) == Triples(st0, row, p, j, put, strip)
    {
      var lang := strip(p.languages[j]);
      var tid := strip(p.ids[j]);
      var text := strip(p.translations[j]);
      if tid == "" {
        failure := failure + 1;
      } else {
        var reply := put(|requests|);
        requests := requests + [PutRequest(tid, text)];
        if |requests| % RateLimit == 0 {
          pauses := pauses + [|requests|];
        }
        if reply.status == 200 {
          success := success + 1;
          report := report + [ReportRow(row.keyId, row.keyName, lang, tid, text, reply.modifiedAt)];
        } else {
          failure := failure + 1;
          failed := failed + [FailedRow(row.keyId, row.keyName, lang, tid, text, reply.status)];
        }
      }
    }
    st := Upload(requests, success, failure, report, failed, pauses);
  }

  // ---------------------------------------------------------------------
  // Properties

  /**
   * The bookkeeping the summary relies on: every request is answered once,
   * a 200 is a success with a report row, anything else a failure with a
   * failed row; no request carries an empty id; the client slept after
   * exactly the requests whose count is a multiple of six.
   */
  ghost predicate Accounted(st: Upload) {
    && st.success == |st.report|
    && |st.requests| == st.success + |st.failed|
    && st.failure >= |st.failed|
    && (forall i :: 0 <= i < |st.requests| ==> st.requests[i].translationId != "")
    && |st.pauses| == |st.requests| / RateLimit
    && (forall i :: 0 <= i < |st.pauses| ==> st.pauses[i] == RateLimit * (i + 1))
    && (forall i :: 0 <= i < |st.failed| ==> st.failed[i].statusCode != 200)
  }

  lemma TripleAccounted(st: Upload, row: DoneRow, lang: string, tid: string, text: string, put: nat -> PutReply, strip: string -> string)
    requires Accounted(st)
    ensures Accounted(Triple(st, row, lang, tid, text, put, strip))
    ensures Triple(st, row, lang, tid, text, put, strip).success + Triple(st, row, lang, tid, text, put, strip).failure == st.success + st.failure + 1
  {
    var n := |st.requests|;
    if strip(tid) != "" {
      if (n + 1) % RateLimit == 0 {
        assert (n + 1) / RateLimit == n / RateLimit + 1;
      } else {
        assert (n + 1) / RateLimit == n / RateLimit;
      }
    }
  }

  lemma {:induction false} TriplesAccounted(st: Upload, row: DoneRow, p: Parts, n: nat, put: nat -> PutReply, strip: string -> string)
    requires Matching(p) && n <= |p.languages|
    requires Accounted(st)
    ensures var r := Triples(st, row, p, n, put, strip);
      Accounted(r) && r.success + r.failure == st.success + st.failure + n
  {
    if n > 0 {
      TriplesAccounted(st, row, p, n - 1, put, strip);
      var prev := Triples(st, row, p, n - 1, put, strip);
      assert Triples(st, row, p, n, put, strip) == Triple(prev, row, p.languages[n - 1], p.ids[n - 1], p.translations[n - 1], put, strip);
      TripleAccounted(prev, row, p.languages[n - 1], p.ids[n - 1], p.translations[n - 1], put, strip);
    }
  }

  /** The number of languages over the rows, each split by `parts`. */
  function LanguageCount(rows: seq<DoneRow>, parts: DoneRow -> Parts): nat {
    if |rows| == 0 then 0
    else LanguageCount(rows[..|rows| - 1], parts) + |parts(rows[|rows| - 1]).languages|
  }

  /**
   * Over the whole run the bookkeeping holds, and every language of every
   * row ends up counted exactly once, as a success or as a failure.
   */
  lemma {:induction false} UploadAccounted(rows: seq<DoneRow>, parts: DoneRow -> Parts, put: nat -> PutReply, strip: string -> string)
    ensures Accounted(UploadWith(rows, parts, put, strip))
    ensures UploadWith(rows, parts, put, strip).success + UploadWith(rows, parts, put, strip).failure == LanguageCount(rows, parts)
  {
    if |rows| > 0 {
      var init := rows[..|rows| - 1];
      var row := rows[|rows| - 1];
      UploadAccounted(init, parts, put, strip);
      var p := parts(row);
      if Matching(p) {
        TriplesAccounted(UploadWith(init, parts, put, strip), row, p, |p.languages|, put, strip);
      }
    }
  }

  /** Over `update_translations`: request_count == success_count + the non-200 responses, and so on. */
  lemma UpdateAccounted(configured: bool, doneFile: Option<seq<DoneRow>>, put: nat -> PutReply)
    ensures var run := UpdateSpec(configured, doneFile, put);
      run.Uploaded? ==> (Accounted(run.result)
        && run.result.success + run.result.failure == LanguageCount(doneFile.value, PartsOf))
  {
    if configured && doneFile.Some? && |doneFile.value| > 0 {
      UploadAccounted(doneFile.value, PartsOf, put, Strip);
    }
  }

  /** A missing or empty input file, or missing credentials, sends nothing. */
  lemma NoRequestWithoutInput(configured: bool, doneFile: Option<seq<DoneRow>>, put: nat -> PutReply)
    requires !configured || doneFile.None? || doneFile.value == []
    ensures !UpdateSpec(configured, doneFile, put).Uploaded?
  {
  }

  /** A mismatched row sends nothing and counts each of its languages as a failure. */
  lemma MismatchSendsNothing(st: Upload, row: DoneRow, p: Parts, put: nat -> PutReply, strip: string -> string)
    requires !Matching(p)
    ensures RowStep(st, row, p, put, strip).requests == st.requests
    ensures RowStep(st, row, p, put, strip).failure == st.failure + |p.languages|
  {
  }

  /**
   * A row written as the translator writes it — comma-joined languages
   * and ids, '|'-joined translations, one per language, with no separator
   * inside a value — splits back into its lists and so passes the count
   * check.
   */
  lemma JoinedRowMatches(row: DoneRow, langs: seq<string>, ids: seq<string>, texts: seq<string>)
    requires |langs| >= 1 && |langs| == |ids| == |texts|
    requires forall i :: 0 <= i < |langs| ==> ',' !in langs[i] && ',' !in ids[i] && '|' !in texts[i]
    requires row.languages == Join(langs, ",") && row.translationId == Join(ids, ",") && row.translated == Join(texts, "|")
    ensures PartsOf(row) == Parts(langs, ids, texts)
    ensures Matching(PartsOf(row))
  {
    forall i | 0 <= i < |langs| ensures SepFree(langs[i], ",") && SepFree(ids[i], ",") && SepFree(texts[i], "|") {
      CharSepFree(langs[i], ',');
      CharSepFree(ids[i], ',');
      CharSepFree(texts[i], '|');
    }
    SplitJoin(langs, ",");
    SplitJoin(ids, ",");
    SplitJoin(texts, "|");
  }
}
