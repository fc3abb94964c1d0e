/**
 * The translation run of the OpenAI translator (`load_completed_keys`,
 * `run_translation`): the ACTION phase, the resume filter against the
 * output store, the row loop that translates every target language of a
 * row and appends one record per row, and the closing EXTENSION phase.
 * The output store (`translation_done.csv`) is a header line and the
 * lines after it, which the run only ever appends to, cell by cell under
 * the queue's field names.
 */
module TranslateRun {
  import opened Wrappers
  import opened Text
  import opened TranslateRetry
  import opened TranslatePlugins
  import MyPayments

  /** A CSV record as the dictionary reader yields it: column name to cell. */
  type Row = map<string, string>

  const KeyId := "key_id"
  const Translation := "translation"
  const Languages := "languages"
  const TranslatedColumn := "translated"

  /** The input queue file: header and records, or absent. */
  datatype InputFile = NoInput | Input(header: seq<string>, rows: seq<Row>)

  /** The queue as the dictionary reader yields it: every column of a record is a header column. */
  predicate FromReader(input: InputFile) {
    input.Input? ==> forall i, k :: 0 <= i < |input.rows| && k in input.rows[i] ==> k in input.header
  }

  /**
   * The output store as a file: its first line, which the dictionary
   * reader takes as the header, and the lines after it, each its list of
   * cells. `unreadable` stands for content the CSV reader rejects.
   */
  datatype StoreState = Absent | Present(unreadable: bool, header: seq<string>, lines: seq<seq<string>>)

  /** Opening the store for append finds it empty (`tell() == 0`). */
  predicate StoreEmpty(s: StoreState) {
    s.Absent? || (s.header == [] && s.lines == [])
  }

  predicate AllKeyed(rows: seq<Row>) {
    forall i :: 0 <= i < |rows| ==> KeyId in rows[i]
  }

  /** The last position of `x` in `h`, or -1: the column `dict(zip(header, line))` takes `x` from. */
  function LastIndex(h: seq<string>, x: string): (r: int)
    ensures -1 <= r < |h|
    ensures r >= 0 ==> h[r] == x
    ensures r < 0 <==> x !in h
    ensures forall j :: r < j < |h| ==> h[j] != x
  {
    if |h| == 0 then -1
    else if h[|h| - 1] == x then |h| - 1
    else
      assert h == h[..|h| - 1] + [h[|h| - 1]];
      LastIndex(h[..|h| - 1], x)
  }

  /**
   * `load_completed_keys`: the cell under `key_id` of every line of a
   * readable store, read under the store's own header. Nothing when the
   * store is absent or unreadable, or when its header has no `key_id`
   * column (the reader's KeyError, or no line at all); a line too short to
   * reach the column reads as `None`, which is no key.
   */
  function CompletedKeys(s: StoreState): set<string> {
    if s.Absent? || s.unreadable then {}
    else
      var p := LastIndex(s.header, KeyId);
      if p < 0 then {}
      else set i | 0 <= i < |s.lines| && p < |s.lines[i]| :: s.lines[i][p]
  }

  /** `DictWriter.writerow`: the record's cell for each field name, "" for a missing one. */
  function LineOf(rec: Row, fields: seq<string>): seq<string> {
    seq(|fields|, j requires 0 <= j < |fields| => if fields[j] in rec then rec[fields[j]] else "")
  }

  function LinesOf(recs: seq<Row>, fields: seq<string>): seq<seq<string>> {
    seq(|recs|, i requires 0 <= i < |recs| => LineOf(recs[i], fields))
  }

  lemma LinesSnoc(recs: seq<Row>, rec: Row, fields: seq<string>)
    ensures LinesOf(recs + [rec], fields) == LinesOf(recs, fields) + [LineOf(rec, fields)]
  {
    assert forall i :: 0 <= i < |recs| ==> (recs + [rec])[i] == recs[i];
  }

  /** A record written under field names with a `key_id` column is read back with its `key_id` there. */
  lemma KeyCell(rec: Row, fields: seq<string>)
    requires KeyId in rec && KeyId in fields
    ensures var p := LastIndex(fields, KeyId);
      0 <= p < |LineOf(rec, fields)| && LineOf(rec, fields)[p] == rec[KeyId]
  {
  }

  /** A record the run writes back is readable with these columns. */
  predicate RequiredColumns(row: Row) {
    KeyId in row && Translation in row && Languages in row
  }

  /** The queue records whose key is not yet complete, in queue order. */
  function Pending(rows: seq<Row>, completed: set<string>): (r: seq<Row>)
    requires AllKeyed(rows)
    ensures |r| <= |rows|
    ensures forall i :: 0 <= i < |r| ==> r[i] in rows && r[i][KeyId] !in completed
  {
    if |rows| == 0 then []
    else
      var init := Pending(rows[..|rows| - 1], completed);
      var row := rows[|rows| - 1];
      if row[KeyId] !in completed then init + [row] else init
  }

  /** The target languages of a record: the stripped, non-empty comma-separated codes. */
  function TargetLanguages(row: Row): seq<string>
    requires Languages in row
  {
    SplitStripped(row[Languages], ",")
  }

  /** What translating one record produced. */
  datatype RowWork = RowWork(translations: seq<string>, requests: seq<Request>, waits: seq<nat>, done: nat)

  /** The request `translate_text` sends for `text` into `lang`. */
  function RequestFor(text: string, lang: string, addons: string): Request {
    Request(text, lang, addons)
  }

  /** `prev` followed by one call of `translate_text` that sent `req` and ended as `a`. */
  function AddLang(prev: RowWork, a: Attempts, req: Request): RowWork {
    RowWork(prev.translations + [a.text], prev.requests + Repeat(req, a.calls),
            prev.waits + a.waits, prev.done + (if a.text != "" then 1 else 0))
  }

  /** Translating `text` into each of `langs` in turn, for the pending record number `index`. */
  function LangsWork(service: Service, index: nat, text: string, langs: seq<string>, addons: string): RowWork {
    if |langs| == 0 then RowWork([], [], [], 0)
    else
      var prev := LangsWork(service, index, text, langs[..|langs| - 1], addons);
      AddLang(prev, Retry(service(index, |langs| - 1)), RequestFor(text, langs[|langs| - 1], addons))
  }

  lemma LangsStep(service: Service, index: nat, text: string, langs: seq<string>, i: nat, addons: string)
    requires i < |langs|
    ensures var prev := LangsWork(service, index, text, langs[..i], addons);
      LangsWork(service, index, text, langs[..i + 1], addons)
        == AddLang(prev, Retry(service(index, i)), RequestFor(text, langs[i], addons))
  {
    assert langs[..i + 1][..i] == langs[..i];
  }

  /** One record: a blank source text gets an empty result per language and no calls. */
  function RowOutcome(service: Service, index: nat, row: Row, addons: string): RowWork
    requires RequiredColumns(row)
  {
    var langs := TargetLanguages(row);
    var text := Strip(row[Translation]);
    if text == "" then RowWork(Repeat("", |langs|), [], [], 0)
    else LangsWork(service, index, text, langs, addons)
  }

  /**
   * What the translation service answers: `service(r, l)` gives the
   * outcome of each attempt for the `l`-th target language of the `r`-th
   * pending record.
   */
  type Service = (nat, nat) -> Provider

  /** The record written for `row`. */
  function Written(row: Row, w: RowWork): Row {
    row[TranslatedColumn := Join(w.translations, "|")]
  }

  /** What the row loop did so far: records appended, requests sent, waits taken, successes. */
  datatype Session = Session(appended: seq<Row>, requests: seq<Request>, waits: seq<nat>, done: nat)

  const NoSession := Session([], [], [], 0)

  /** `prev` followed by the record `row` translated as `w`. */
  function AddRow(prev: Session, row: Row, w: RowWork): Session {
    Session(prev.appended + [Written(row, w)], prev.requests + w.requests, prev.waits + w.waits, prev.done + w.done)
  }

  /** The row loop over the pending records; records lacking a required column are skipped. */
  function RowsWork(service: Service, rows: seq<Row>, addons: string): Session {
    RowsWith(rows, OutcomeOf(service, addons))
  }

  /** The translation of the `i`-th pending record, for a record with the required columns. */
  function OutcomeOf(service: Service, addons: string): (nat, Row) -> RowWork {
    (i: nat, row: Row) => if RequiredColumns(row) then RowOutcome(service, i, row, addons) else RowWork([], [], [], 0)
  }

  /** The row loop, for a given translation of each record. */
  function RowsWith(rows: seq<Row>, outcome: (nat, Row) -> RowWork): Session {
    if |rows| == 0 then NoSession
    else
      var prev := RowsWith(rows[..|rows| - 1], outcome);
      var row := rows[|rows| - 1];
      if !RequiredColumns(row) then prev
      else AddRow(prev, row, outcome(|rows| - 1, row))
  }

  lemma RowsStep(rows: seq<Row>, i: nat, outcome: (nat, Row) -> RowWork)
    requires i < |rows|
    ensures var prev := RowsWith(rows[..i], outcome);
      RowsWith(rows[..i + 1], outcome)
        == if RequiredColumns(rows[i]) then AddRow(prev, rows[i], outcome(i, rows[i])) else prev
  {
    assert rows[..i + 1][..i] == rows[..i];
  }

  /** Opening the store for append creates it and writes the header into an empty one. */
  function Opened(s: StoreState, fieldnames: seq<string>): (r: StoreState)
    ensures r.Present?
  {
    match s
    case Absent => Present(false, fieldnames, [])
    case Present(u, h, lines) => if h == [] && lines == [] then Present(u, fieldnames, []) else s
  }

  /** The store with `extra` written after its lines. */
  function AppendRows(s: StoreState, extra: seq<seq<string>>): StoreState {
    match s
    case Absent => Absent
    case Present(u, h, lines) => Present(u, h, lines + extra)
  }

  lemma AppendRowsTwice(s: StoreState, a: seq<seq<string>>, line: seq<string>)
    ensures AppendRows(AppendRows(s, a), [line]) == AppendRows(s, a + [line])
  {
    if s.Present? { assert s.lines + a + [line] == s.lines + (a + [line]); }
  }

  /** How `run_translation` ended. */
  datatype Outcome = Bypassed | NoInputFile | EmptyInput | MissingKeyId | NothingPending | Translated

  /** The part of a run after the ACTION phase: outcome, store, row-loop work. */
  datatype Resumed = Resumed(outcome: Outcome, store: StoreState, session: Session)

  /**
   * Reading the queue, filtering out the keys `completed` (read from the
   * store when the run started), and translating the rest into the store
   * `s`. A missing, empty or fully completed queue, or a queue record
   * without `key_id`, ends the run with the store untouched.
   */
  function ResumeFrom(completed: set<string>, s: StoreState, input: InputFile, service: Service, addons: string): Resumed {
    match input
    case NoInput => Resumed(NoInputFile, s, NoSession)
    case Input(header, rows) =>
      if |rows| == 0 then Resumed(EmptyInput, s, NoSession)
      else if !AllKeyed(rows) then Resumed(MissingKeyId, s, NoSession)
      else
        var pending := Pending(rows, completed);
        if |pending| == 0 then Resumed(NothingPending, s, NoSession)
        else
          var session := RowsWork(service, pending, addons);
          var fields := header + [TranslatedColumn];
          Resumed(Translated, AppendRows(Opened(s, fields), LinesOf(session.appended, fields)), session)
  }

  /** `ResumeFrom` on a store the ACTION phase left as it was. */
  function Resume(s0: StoreState, input: InputFile, service: Service, addons: string): Resumed {
    ResumeFrom(CompletedKeys(s0), s0, input, service, addons)
  }

  datatype RunReport = RunReport(outcome: Outcome, store: StoreState, actionRan: seq<string>,
                                 extensionRan: seq<string>, session: Session)

  /**
   * What an ACTION plugin's `run` or an EXTENSION plugin's
   * `filter_translations` leaves of the output store, given the store it
   * finds: `effects(phase, name, s)`. A plugin file that carries both
   * markers may do different things in each phase. A plugin that does not
   * touch the file leaves `s`; the bundled myPayments plugin rewrites it
   * without some records (`PaymentsRewrite`).
   */
  type StoreEffects = (Kind, string, StoreState) -> StoreState

  /** The store after the plugins `names` of `phase` have run, in order, on `s`. */
  function AfterPhase(effects: StoreEffects, phase: Kind, names: seq<string>, s: StoreState): StoreState {
    if |names| == 0 then s
    else effects(phase, names[|names| - 1], AfterPhase(effects, phase, names[..|names| - 1], s))
  }

  /**
   * `run_translation`: the complete keys are read first, then the ACTION
   * phase runs (a bypass runs the EXTENSION phase and nothing else), then
   * the queue, filtered by the keys read before the ACTION phase; the
   * EXTENSION phase runs only after the row loop, not after an early
   * return. Each phase leaves the store as its plugins leave it.
   */
  function RunSpec(s0: StoreState, dir: Option<seq<PluginFile>>, modules: Modules, effects: StoreEffects,
                   input: InputFile, service: Service): RunReport
  {
    var catalog := Discover(dir);
    var action := RunPhase(catalog.action, Action, modules);
    var extension := RunPhase(catalog.extension, Extension, modules).invoked;
    var acted := AfterPhase(effects, Action, action.invoked, s0);
    if action.bypass then
      RunReport(Bypassed, AfterPhase(effects, Extension, extension, acted), action.invoked, extension, NoSession)
    else
      var r := ResumeFrom(CompletedKeys(s0), acted, input, service, Join(PromptTexts(dir, catalog.prompt), " "));
      if r.outcome == Translated then
        RunReport(r.outcome, AfterPhase(effects, Extension, extension, r.store), action.invoked, extension, r.session)
      else RunReport(r.outcome, r.store, action.invoked, [], r.session)
  }

  /** `translation_done.csv`: created on first append, header written once, records only appended. */
  class OutputStore {
    var present: bool
    var unreadable: bool
    var header: seq<string>
    var lines: seq<seq<string>>

    predicate Valid() reads this {
      !present ==> !unreadable && header == [] && lines == []
    }

    function State(): StoreState reads this {
      if present then Present(unreadable, header, lines) else Absent
    }

    constructor (s: StoreState)
      ensures Valid() && State() == s
    {
      match s {
        case Absent => present, unreadable, header, lines := false, false, [], [];
        case Present(u, h, l) => present, unreadable, header, lines := true, u, h, l;
      }
    }

    /** `OUTPUT_FILE.open('a')` followed by the header when `tell() == 0`. */
    method Open(fieldnames: seq<string>)
      requires Valid()
      modifies this
      ensures Valid() && State() == Opened(old(State()), fieldnames)
    {
      if !present || (header == [] && lines == []) {
        header := fieldnames;
        present := true;
      }
    }

    /** Another program rewriting the file: afterwards it holds `s`. */
    method Rewrite(s: StoreState)
      modifies this
      ensures Valid() && State() == s
    {
      match s {
        case Absent => present, unreadable, header, lines := false, false, [], [];
        case Present(u, h, l) => present, unreadable, header, lines := true, u, h, l;
      }
    }

    /** `writer.writerow(row)` followed by `flush()`: one line of cells. */
    method Append(line: seq<string>)
      requires Valid() && present
      modifies this
      ensures Valid() && present && State() == AppendRows(old(State()), [line])
    {
      lines := lines + [line];
    }
  }

  /** The language loop of one record: `translate_text` once per target language. */
  method TranslateLangs(service: Service, index: nat, text: string, langs: seq<string>, addons: string)
    returns (w: RowWork)
    ensures w == LangsWork(service, index, text, langs, addons)
  {
    w := RowWork([], [], [], 0);
    var i := 0;
    while i < |langs|
      invariant 0 <= i <= |langs|
      invariant w == LangsWork(service, index, text, langs[..i], addons)
    {
      LangsStep(service, index, text, langs, i, addons);
      var translation, waits, sent := TranslateText(service(index, i), text, langs[i], addons);
      w := AddLang(w, Attempts(translation, waits, |sent|), RequestFor(text, langs[i], addons));
      i := i + 1;
    }
    assert langs[..|langs|] == langs;
  }

  /** One record: a blank source text gets an empty result per language without any call. */
  method TranslateRow(service: Service, index: nat, row: Row, addons: string) returns (w: RowWork)
    requires RequiredColumns(row)
    ensures w == RowOutcome(service, index, row, addons)
  {
    var langs := SplitStripped(row[Languages], ",");
    var text := Strip(row[Translation]);
    if text == "" {
      w := RowWork(Repeat("", |langs|), [], [], 0);
    } else {
      w := TranslateLangs(service, index, text, langs, addons);
    }
  }

  /** One pending record with the required columns: translated, then written under `fields`. */
  method AppendRecord(store: OutputStore, service: Service, index: nat, row: Row, addons: string, fields: seq<string>)
    returns (w: RowWork)
    requires store.Valid() && store.present && RequiredColumns(row)
    modifies store
    ensures store.Valid() && store.present
    ensures w == RowOutcome(service, index, row, addons)
    ensures store.State() == AppendRows(old(store.State()), [LineOf(Written(row, w), fields)])
  {
    w := TranslateRow(service, index, row, addons);
    store.Append(LineOf(Written(row, w), fields));
  }

  /** The row loop: each pending record with the required columns is translated and appended. */
  method TranslatePending(store: OutputStore, service: Service, pending: seq<Row>, addons: string, fields: seq<string>)
    returns (session: Session)
    requires store.Valid() && store.present
    modifies store
    ensures store.Valid() && store.present
    ensures session == RowsWork(service, pending, addons)
    ensures store.State() == AppendRows(old(store.State()), LinesOf(session.appended, fields))
  {
    session := NoSession;
    ghost var outcome := OutcomeOf(service, addons);
    var i := 0;
    while i < |pending|
      invariant 0 <= i <= |pending|
      invariant store.Valid() && store.present
      invariant session == RowsWith(pending[..i], outcome)
      invariant store.State() == AppendRows(old(store.State()), LinesOf(session.appended, fields))
    {
      RowsStep(pending, i, outcome);
      var row := pending[i];
      if RequiredColumns(row) {
        var w := AppendRecord(store, service, i, row, addons, fields);
        assert w == outcome(i, row);
        AppendRowsTwice(old(store.State()), LinesOf(session.appended, fields), LineOf(Written(row, w), fields));
        LinesSnoc(session.appended, Written(row, w), fields);
        session := AddRow(session, row, w);
      }
      i := i + 1;
    }
    assert pending[..|pending|] == pending;
  }

  /** Everything after the ACTION phase, against the store, with the keys `completed` read before it. */
  method ResumeRun(store: OutputStore, completed: set<string>, input: InputFile, service: Service, addons: string)
    returns (r: Resumed)
    requires store.Valid()
    modifies store
    ensures store.Valid()
    ensures r == ResumeFrom(completed, old(store.State()), input, service, addons)
    ensures store.State() == r.store
  {
    var s0 := store.State();
    if input.NoInput? {
      return Resumed(NoInputFile, s0, NoSession);
    }
    var rows := input.rows;
    if |rows| == 0 {
      return Resumed(EmptyInput, s0, NoSession);
    }
    if !AllKeyed(rows) {
      return Resumed(MissingKeyId, s0, NoSession);
    }
    var pending := Pending(rows, completed);
    if |pending| == 0 {
      return Resumed(NothingPending, s0, NoSession);
    }
    var fields := input.header + [TranslatedColumn];
    store.Open(fields);
    var session := TranslatePending(store, service, pending, addons, fields);
    r := Resumed(Translated, store.State(), session);
  }

  /** What the plugins `names`, each called in turn, do to the store. */
  method ApplyEffects(store: OutputStore, effects: StoreEffects, phase: Kind, names: seq<string>)
    requires store.Valid()
    modifies store
    ensures store.Valid() && store.State() == AfterPhase(effects, phase, names, old(store.State()))
  {
    for i := 0 to |names|
      invariant store.Valid() && store.State() == AfterPhase(effects, phase, names[..i], old(store.State()))
    {
      assert names[..i + 1][..i] == names[..i];
      store.Rewrite(effects(phase, names[i], store.State()));
    }
    assert names[..|names|] == names;
  }

  /** `run_translation` against the output store. */
  method RunTranslation(store: OutputStore, dir: Option<seq<PluginFile>>, modules: Modules, effects: StoreEffects,
                        input: InputFile, service: Service) returns (report: RunReport)
    requires store.Valid()
    modifies store
    ensures store.Valid()
    ensures report == RunSpec(old(store.State()), dir, modules, effects, input, service)
    ensures store.State() == report.store
  {
    var completed := CompletedKeys(store.State());
    var catalog := DiscoverPlugins(dir);
    var bypass, actionRan := RunPlugins(catalog.action, Action, modules);
    ApplyEffects(store, effects, Action, actionRan);
    if bypass {
      var _, extensionRan := RunPlugins(catalog.extension, Extension, modules);
      ApplyEffects(store, effects, Extension, extensionRan);
      return RunReport(Bypassed, store.State(), actionRan, extensionRan, NoSession);
    }
    var addons := LoadPromptPlugins(dir, catalog.prompt);
    var r := ResumeRun(store, completed, input, service, addons);
    var extensionRan := [];
    if r.outcome == Translated {
      var _, ran := RunPlugins(catalog.extension, Extension, modules);
      ApplyEffects(store, effects, Extension, ran);
      extensionRan := ran;
    }
    report := RunReport(r.outcome, store.State(), actionRan, extensionRan, r.session);
  }

  // ---------------------------------------------------------------------
  // Properties of one record

  function CountNonEmpty(xs: seq<string>): nat {
    if |xs| == 0 then 0 else CountNonEmpty(xs[..|xs| - 1]) + (if xs[|xs| - 1] != "" then 1 else 0)
  }

  /**
   * Each target language gets exactly one result, in order; the success
   * count is the number of non-empty results; every request carries the
   * stripped source text and one of the record's languages.
   */
  lemma {:induction false} LangsWorkShape(service: Service, index: nat, text: string, langs: seq<string>, addons: string)
    ensures var w := LangsWork(service, index, text, langs, addons);
      |w.translations| == |langs| && w.done == CountNonEmpty(w.translations)
      && (forall j :: 0 <= j < |w.requests| ==> w.requests[j].text == text && w.requests[j].langCode in langs)
  {
    if |langs| > 0 {
      var init := langs[..|langs| - 1];
      LangsWorkShape(service, index, text, init, addons);
      var w := LangsWork(service, index, text, langs, addons);
      var prev := LangsWork(service, index, text, init, addons);
      assert w.translations[..|w.translations| - 1] == prev.translations;
      forall j | 0 <= j < |w.requests| ensures w.requests[j].text == text && w.requests[j].langCode in langs {
        if j < |prev.requests| {
          assert w.requests[j] == prev.requests[j];
          assert prev.requests[j].langCode in init;
        } else {
          assert w.requests[j] == RequestFor(text, langs[|langs| - 1], addons);
        }
      }
    }
  }

  lemma {:induction false} RepeatEmptyCount(n: nat)
    ensures CountNonEmpty(Repeat("", n)) == 0
  {
    if n > 0 {
      assert Repeat("", n)[..n - 1] == Repeat("", n - 1);
      RepeatEmptyCount(n - 1);
    }
  }

  /**
   * One result per target language whatever the source text; a blank
   * source text calls nothing, and the success count is the number of
   * non-empty results.
   */
  lemma RowOutcomeShape(service: Service, index: nat, row: Row, addons: string)
    requires RequiredColumns(row)
    ensures var w := RowOutcome(service, index, row, addons);
      |w.translations| == |TargetLanguages(row)| && w.done == CountNonEmpty(w.translations)
      && (Strip(row[Translation]) == "" ==> w.requests == [] && w.done == 0)
      && (forall j :: 0 <= j < |w.requests| ==>
            (w.requests[j].text == Strip(row[Translation]) != "" && w.requests[j].langCode in TargetLanguages(row)))
  {
    var langs := TargetLanguages(row);
    var text := Strip(row[Translation]);
    if text == "" {
      RepeatEmptyCount(|langs|);
    } else {
      LangsWorkShape(service, index, text, langs, addons);
    }
  }

  /**
   * The `translated` cell splits back into the per-language results when
   * there is at least one language and no result contains `|`.
   */
  lemma TranslatedCellRoundTrip(translations: seq<string>)
    requires |translations| >= 1
    requires forall i :: 0 <= i < |translations| ==> '|' !in translations[i]
    ensures Split(Join(translations, "|"), "|") == translations
  {
    forall i | 0 <= i < |translations| ensures SepFree(translations[i], "|") {
      CharSepFree(translations[i], '|');
    }
    SplitJoin(translations, "|");
  }

  // ---------------------------------------------------------------------
  // Properties of the row loop

  /** The records of `rows` that have the required columns, in order. */
  function Translatable(rows: seq<Row>): (r: seq<Row>)
    ensures |r| <= |rows|
  {
    if |rows| == 0 then []
    else
      var init := Translatable(rows[..|rows| - 1]);
      if RequiredColumns(rows[|rows| - 1]) then init + [rows[|rows| - 1]] else init
  }

  lemma {:induction false} TranslatableMembers(rows: seq<Row>, row: Row)
    ensures row in Translatable(rows) <==> row in rows && RequiredColumns(row)
  {
    if |rows| > 0 {
      TranslatableMembers(rows[..|rows| - 1], row);
      assert rows == rows[..|rows| - 1] + [rows[|rows| - 1]];
    }
  }

  /**
   * The records appended are the records with the required columns, in
   * order, each with its `translated` cell set and nothing else changed.
   */
  lemma {:induction false} AppendedRecords(rows: seq<Row>, outcome: (nat, Row) -> RowWork)
    ensures var s := RowsWith(rows, outcome);
      var t := Translatable(rows);
      |s.appended| == |t|
      && forall j :: 0 <= j < |t| ==>
           TranslatedColumn in s.appended[j] && s.appended[j] == t[j][TranslatedColumn := s.appended[j][TranslatedColumn]]
  {
    if |rows| > 0 {
      var init := rows[..|rows| - 1];
      AppendedRecords(init, outcome);
      var prev := RowsWith(init, outcome);
      var row := rows[|rows| - 1];
      if RequiredColumns(row) {
        var s := RowsWith(rows, outcome);
        var t := Translatable(rows);
        var rec := Written(row, outcome(|rows| - 1, row));
        assert s.appended == prev.appended + [rec];
        assert t == Translatable(init) + [row];
        assert rec == row[TranslatedColumn := rec[TranslatedColumn]];
      }
    }
  }

  /** Every record with the required columns is appended with its own `key_id`. */
  lemma EveryTranslatableRowAppended(rows: seq<Row>, outcome: (nat, Row) -> RowWork, row: Row)
    requires row in rows && RequiredColumns(row)
    ensures exists j :: 0 <= j < |RowsWith(rows, outcome).appended|
                        && KeyId in RowsWith(rows, outcome).appended[j]
                        && RowsWith(rows, outcome).appended[j][KeyId] == row[KeyId]
  {
    TranslatableMembers(rows, row);
    AppendedRecords(rows, outcome);
    var t := Translatable(rows);
    var j :| 0 <= j < |t| && t[j] == row;
    assert KeyId != TranslatedColumn;
    var a := RowsWith(rows, outcome).appended[j];
    assert a == row[TranslatedColumn := a[TranslatedColumn]];
  }

  /** Every appended record carries a `key_id`. */
  lemma {:induction false} AppendedAreKeyed(rows: seq<Row>, outcome: (nat, Row) -> RowWork)
    ensures AllKeyed(RowsWith(rows, outcome).appended)
  {
    if |rows| > 0 {
      AppendedAreKeyed(rows[..|rows| - 1], outcome);
    }
  }

  /** A loop over records that all lack a required column sends nothing and appends nothing. */
  lemma {:induction false} UntranslatableRowsDoNothing(rows: seq<Row>, outcome: (nat, Row) -> RowWork)
    requires forall i :: 0 <= i < |rows| ==> !RequiredColumns(rows[i])
    ensures RowsWith(rows, outcome) == NoSession
  {
    if |rows| > 0 {
      UntranslatableRowsDoNothing(rows[..|rows| - 1], outcome);
    }
  }

  /** A record is pending exactly when it is in the queue and its key is not complete. */
  lemma {:induction false} PendingMembers(rows: seq<Row>, completed: set<string>, row: Row)
    requires AllKeyed(rows)
    ensures row in Pending(rows, completed) <==> row in rows && row[KeyId] !in completed
  {
    if |rows| > 0 {
      PendingMembers(rows[..|rows| - 1], completed, row);
      assert rows == rows[..|rows| - 1] + [rows[|rows| - 1]];
    }
  }

  // ---------------------------------------------------------------------
  // Properties of the whole run

  /** A store the reader can parse. */
  predicate Readable(s: StoreState) {
    s.Present? ==> !s.unreadable
  }

  /**
   * The store's header is the one the run writes for this queue, unless
   * the store is empty and the run writes it itself. Rows are appended by
   * position under the queue's header but read back under the store's, so
   * only then is an appended record read back with its own `key_id`.
   */
  predicate HeaderFits(s: StoreState, input: InputFile) {
    input.Input? && !StoreEmpty(s) ==> s.header == input.header + [TranslatedColumn]
  }

  /** A line of a readable store long enough to reach the `key_id` column gives a complete key. */
  lemma InCompleted(s: StoreState, i: nat)
    requires Readable(s) && s.Present? && KeyId in s.header && i < |s.lines|
    requires LastIndex(s.header, KeyId) < |s.lines[i]|
    ensures s.lines[i][LastIndex(s.header, KeyId)] in CompletedKeys(s)
  {
  }

  /**
   * The store only grows: it is untouched unless records were translated,
   * and then the old lines are followed by one line per appended record,
   * written under the queue's header; a non-empty store keeps its header.
   */
  lemma StoreOnlyGrows(s0: StoreState, input: InputFile, service: Service, addons: string)
    ensures var r := Resume(s0, input, service, addons);
      (r.outcome != Translated ==> r.store == s0 && r.session == NoSession)
      && (r.outcome == Translated ==>
            input.Input? && r.store.Present?
            && r.store.lines == (if s0.Present? then s0.lines else [])
                                + LinesOf(r.session.appended, input.header + [TranslatedColumn]))
      && (s0.Present? && !StoreEmpty(s0) ==> r.store.header == s0.header)
  {
  }

  /** The store a translating pass leaves behind. */
  function AfterPass(s0: StoreState, header: seq<string>, rows: seq<Row>, service: Service, addons: string): StoreState
    requires AllKeyed(rows)
  {
    var pending := Pending(rows, CompletedKeys(s0));
    var fields := header + [TranslatedColumn];
    AppendRows(Opened(s0, fields), LinesOf(RowsWork(service, pending, addons).appended, fields))
  }

  /**
   * A translating pass over a readable store whose header fits leaves it
   * readable, not empty, with the queue's header and with the session's
   * lines after the old ones.
   */
  lemma AfterPassReadable(s0: StoreState, header: seq<string>, rows: seq<Row>, service: Service, addons: string)
    requires Readable(s0) && AllKeyed(rows) && HeaderFits(s0, Input(header, rows))
    ensures var s2 := AfterPass(s0, header, rows, service, addons);
      var fields := header + [TranslatedColumn];
      s2.Present? && Readable(s2) && !StoreEmpty(s2) && s2.header == fields
      && s2.lines == Opened(s0, fields).lines
                     + LinesOf(RowsWork(service, Pending(rows, CompletedKeys(s0)), addons).appended, fields)
  {
  }

  /**
   * After a translating pass on a store whose header fits, a queue record
   * with the required columns is complete.
   */
  lemma AfterPassCompletes(s0: StoreState, header: seq<string>, rows: seq<Row>, service: Service, addons: string, i: nat)
    requires Readable(s0) && AllKeyed(rows) && FromReader(Input(header, rows)) && HeaderFits(s0, Input(header, rows))
    requires i < |rows| && RequiredColumns(rows[i])
    ensures rows[i][KeyId] in CompletedKeys(AfterPass(s0, header, rows, service, addons))
  {
    var completed := CompletedKeys(s0);
    var pending := Pending(rows, completed);
    var appended := RowsWork(service, pending, addons).appended;
    var fields := header + [TranslatedColumn];
    var s1 := Opened(s0, fields);
    var s2 := AfterPass(s0, header, rows, service, addons);
    AfterPassReadable(s0, header, rows, service, addons);
    var row := rows[i];
    assert KeyId in header && KeyId in fields;
    var p := LastIndex(fields, KeyId);
    if row[KeyId] !in completed {
      PendingMembers(rows, completed, row);
      EveryTranslatableRowAppended(pending, OutcomeOf(service, addons), row);
      var j :| 0 <= j < |appended| && KeyId in appended[j] && appended[j][KeyId] == row[KeyId];
      assert s2.lines[|s1.lines| + j] == LineOf(appended[j], fields);
      KeyCell(appended[j], fields);
      InCompleted(s2, |s1.lines| + j);
    } else {
      var k :| 0 <= k < |s0.lines| && LastIndex(s0.header, KeyId) < |s0.lines[k]|
               && s0.lines[k][LastIndex(s0.header, KeyId)] == row[KeyId];
      assert s2.lines[k] == s0.lines[k];
      InCompleted(s2, k);
    }
  }

  /**
   * After the queue is handled on a readable store whose header fits, the
   * store is readable, not empty and fits, and every queue record with the
   * required columns is complete.
   */
  lemma ResumeCompletes(s0: StoreState, input: InputFile, service: Service, addons: string)
    requires Readable(s0) && FromReader(input) && HeaderFits(s0, input)
    requires input.Input? && AllKeyed(input.rows)
    requires Resume(s0, input, service, addons).outcome in {Translated, NothingPending}
    ensures var r := Resume(s0, input, service, addons);
      Readable(r.store) && !StoreEmpty(r.store) && HeaderFits(r.store, input)
      && forall i :: 0 <= i < |input.rows| && RequiredColumns(input.rows[i]) ==> input.rows[i][KeyId] in CompletedKeys(r.store)
  {
    var r := Resume(s0, input, service, addons);
    var completed := CompletedKeys(s0);
    if r.outcome == Translated {
      assert r.store == AfterPass(s0, input.header, input.rows, service, addons);
      AfterPassReadable(s0, input.header, input.rows, service, addons);
      forall i | 0 <= i < |input.rows| && RequiredColumns(input.rows[i])
        ensures input.rows[i][KeyId] in CompletedKeys(r.store)
      {
        AfterPassCompletes(s0, input.header, input.rows, service, addons, i);
      }
    } else {
      assert r.store == s0 && |Pending(input.rows, completed)| == 0;
      PendingMembers(input.rows, completed, input.rows[0]);
      assert input.rows[0][KeyId] in completed;
      forall i | 0 <= i < |input.rows| && RequiredColumns(input.rows[i])
        ensures input.rows[i][KeyId] in CompletedKeys(r.store)
      {
        PendingMembers(input.rows, completed, input.rows[i]);
      }
    }
  }

  /**
   * A second pass over the same queue, after a first one on a readable
   * store whose header fits, changes nothing.
   */
  lemma ResumeTwice(s0: StoreState, input: InputFile, service1: Service, service2: Service, addons: string)
    requires Readable(s0) && FromReader(input) && HeaderFits(s0, input)
    ensures var r1 := Resume(s0, input, service1, addons);
      var r2 := Resume(r1.store, input, service2, addons);
      r2.session.requests == [] && r2.store == r1.store
  {
    var r1 := Resume(s0, input, service1, addons);
    if r1.outcome in {Translated, NothingPending} {
      ResumeCompletes(s0, input, service1, addons);
      var pending := Pending(input.rows, CompletedKeys(r1.store));
      forall i | 0 <= i < |pending| ensures !RequiredColumns(pending[i]) {
        PendingMembers(input.rows, CompletedKeys(r1.store), pending[i]);
      }
      UntranslatableRowsDoNothing(pending, OutcomeOf(service2, addons));
      var fields := input.header + [TranslatedColumn];
      assert Opened(r1.store, fields) == r1.store;
      assert LinesOf([], fields) == [];
      assert AppendRows(r1.store, []) == r1.store;
    }
  }

  /** The plugins `names` leave the output store as they find it. */
  ghost predicate LeavesStore(effects: StoreEffects, phase: Kind, names: seq<string>) {
    forall i, s :: 0 <= i < |names| ==> effects(phase, names[i], s) == s
  }

  /** The plugins `names` keep every complete key complete. */
  ghost predicate KeepsCompleted(effects: StoreEffects, phase: Kind, names: seq<string>) {
    forall i, s :: 0 <= i < |names| ==> CompletedKeys(s) <= CompletedKeys(effects(phase, names[i], s))
  }

  /** Plugins that leave the store as they find it leave it so together. */
  lemma {:induction false} AfterUntouching(effects: StoreEffects, phase: Kind, names: seq<string>, s: StoreState)
    requires LeavesStore(effects, phase, names)
    ensures AfterPhase(effects, phase, names, s) == s
  {
    if |names| > 0 {
      var init := names[..|names| - 1];
      assert forall i :: 0 <= i < |init| ==> init[i] == names[i];
      AfterUntouching(effects, phase, init, s);
      assert effects(phase, names[|names| - 1], s) == s;
    }
  }

  /** Plugins that each keep the complete keys complete do so together. */
  lemma {:induction false} AfterKeeping(effects: StoreEffects, phase: Kind, names: seq<string>, s: StoreState)
    requires KeepsCompleted(effects, phase, names)
    ensures CompletedKeys(s) <= CompletedKeys(AfterPhase(effects, phase, names, s))
  {
    if |names| > 0 {
      var init := names[..|names| - 1];
      assert forall i :: 0 <= i < |init| ==> init[i] == names[i];
      AfterKeeping(effects, phase, init, s);
      var mid := AfterPhase(effects, phase, init, s);
      assert CompletedKeys(mid) <= CompletedKeys(effects(phase, names[|names| - 1], mid));
    }
  }

  /**
   * Resuming is idempotent when the ACTION and EXTENSION plugins the run
   * calls leave the output store alone: running again, with the same
   * plugins and queue, on what a run left behind sends no request and
   * leaves the store as it was, whatever the translation service answers
   * the second time, when the store was empty or carries the header this
   * queue writes.
   */
  lemma ResumeIsIdempotent(s0: StoreState, dir: Option<seq<PluginFile>>, modules: Modules, effects: StoreEffects,
                           input: InputFile, service1: Service, service2: Service)
    requires Readable(s0) && FromReader(input) && HeaderFits(s0, input)
    requires LeavesStore(effects, Action, RunPhase(Discover(dir).action, Action, modules).invoked)
    requires LeavesStore(effects, Extension, RunPhase(Discover(dir).extension, Extension, modules).invoked)
    ensures var r1 := RunSpec(s0, dir, modules, effects, input, service1);
      var r2 := RunSpec(r1.store, dir, modules, effects, input, service2);
      r2.session.requests == [] && r2.store == r1.store
  {
    var action := RunPhase(Discover(dir).action, Action, modules).invoked;
    var extension := RunPhase(Discover(dir).extension, Extension, modules).invoked;
    var addons := Join(PromptTexts(dir, Discover(dir).prompt), " ");
    var s1 := Resume(s0, input, service1, addons).store;
    AfterUntouching(effects, Action, action, s0);
    AfterUntouching(effects, Extension, extension, s0);
    AfterUntouching(effects, Action, action, s1);
    AfterUntouching(effects, Extension, extension, s1);
    AfterUntouching(effects, Extension, extension, Resume(s1, input, service2, addons).store);
    ResumeTwice(s0, input, service1, service2, addons);
  }

  /**
   * A second run sends no request, whatever the service answers either
   * time, as long as the ACTION plugins the run calls leave the output
   * store alone and the EXTENSION plugins keep the complete keys complete;
   * the store itself may change, since those plugins run again.
   */
  lemma SecondRunSendsNothing(s0: StoreState, dir: Option<seq<PluginFile>>, modules: Modules, effects: StoreEffects,
                              input: InputFile, service1: Service, service2: Service)
    requires Readable(s0) && FromReader(input) && HeaderFits(s0, input)
    requires LeavesStore(effects, Action, RunPhase(Discover(dir).action, Action, modules).invoked)
    requires KeepsCompleted(effects, Extension, RunPhase(Discover(dir).extension, Extension, modules).invoked)
    ensures var r1 := RunSpec(s0, dir, modules, effects, input, service1);
      RunSpec(r1.store, dir, modules, effects, input, service2).session.requests == []
  {
    var catalog := Discover(dir);
    var action := RunPhase(catalog.action, Action, modules).invoked;
    var extension := RunPhase(catalog.extension, Extension, modules).invoked;
    var addons := Join(PromptTexts(dir, catalog.prompt), " ");
    AfterUntouching(effects, Action, action, s0);
    if !RunPhase(catalog.action, Action, modules).bypass {
      var r := Resume(s0, input, service1, addons);
      var s1 := RunSpec(s0, dir, modules, effects, input, service1).store;
      AfterUntouching(effects, Action, action, s1);
      if r.outcome in {Translated, NothingPending} {
        ResumeCompletes(s0, input, service1, addons);
        AfterKeeping(effects, Extension, extension, r.store);
        assert CompletedKeys(r.store) <= CompletedKeys(s1);
        var pending := Pending(input.rows, CompletedKeys(s1));
        forall i | 0 <= i < |pending| ensures !RequiredColumns(pending[i]) {
          PendingMembers(input.rows, CompletedKeys(s1), pending[i]);
        }
        UntranslatableRowsDoNothing(pending, OutcomeOf(service2, addons));
      }
    }
  }

  /** The record `csv.DictReader` reads from a line as long as the header: each column's last cell. */
  function RecordOf(header: seq<string>, line: seq<string>): Row
    requires |line| == |header|
  {
    map k | k in header :: line[LastIndex(header, k)]
  }

  /** A readable store whose lines all have one cell per header column. */
  predicate Rectangular(s: StoreState) {
    s.Present? && !s.unreadable && |s.header| > 0 && forall i :: 0 <= i < |s.lines| ==> |s.lines[i]| == |s.header|
  }

  /** The records of a rectangular store, in file order. */
  function Records(s: StoreState): seq<Row>
    requires Rectangular(s)
  {
    seq(|s.lines|, i requires 0 <= i < |s.lines| => RecordOf(s.header, s.lines[i]))
  }

  /**
   * The myPayments plugin when nobody keeps the rows: `delete_keys`
   * rewrites the store under its own header with the records neither the
   * SoftPOS test nor the URL test picks.
   */
  function PaymentsRewrite(s: StoreState): (r: StoreState)
    requires Rectangular(s)
  {
    var recs := Records(s);
    var gone := MyPayments.Filter(recs, MyPayments.IsSoftposRow) + MyPayments.Filter(recs, MyPayments.IsUrlRow);
    Present(false, s.header, LinesOf(MyPayments.Without(recs, gone), s.header))
  }

  /** A record written under `fields` reads back with its own cell in each of its columns. */
  lemma ReadBackCell(rec: Row, fields: seq<string>, k: string)
    requires k in rec && k in fields
    ensures k in RecordOf(fields, LineOf(rec, fields)) && RecordOf(fields, LineOf(rec, fields))[k] == rec[k]
  {
  }

  /**
   * The myPayments plugin undoes resuming: a record whose source text
   * carries a URL is translated and appended by a first run, the plugin
   * then deletes it, and a second run finds the record pending again and
   * translates and appends it once more.
   */
  lemma PaymentsRewriteRetranslates(header: seq<string>, row: Row, addons: string, service1: Service, service2: Service)
    requires RequiredColumns(row) && FromReader(Input(header, [row]))
    requires MyPayments.HasUrl(row[Translation])
    ensures var r1 := Resume(Absent, Input(header, [row]), service1, addons);
      r1.outcome == Translated && Rectangular(r1.store) && row[KeyId] in CompletedKeys(r1.store)
      && var s1 := PaymentsRewrite(r1.store);
      row[KeyId] !in CompletedKeys(s1) && Pending([row], CompletedKeys(s1)) == [row]
      && var r2 := Resume(s1, Input(header, [row]), service2, addons);
      r2.outcome == Translated && r2.store.Present? && |r2.store.lines| == 1
  {
    var fields := header + [TranslatedColumn];
    var rec := Written(row, OutcomeOf(service1, addons)(0, row));
    assert [row][0] == row;
    assert KeyId in header && Translation in header;
    FirstRunAppends(Absent, header, row, addons, service1);
    LineKeyComplete(rec, fields);
    ReadBackCell(rec, fields, Translation);
    var s1 := UrlRecordDeleted(fields, LineOf(rec, fields), row[Translation]);
    SecondRunAppends(header, row, addons, service2, s1);
  }

  /** A first run on no store writes the header and the record's line. */
  lemma FirstRunAppends(s0: StoreState, header: seq<string>, row: Row, addons: string, service: Service)
    requires s0.Absent? && RequiredColumns(row)
    ensures var fields := header + [TranslatedColumn];
      var r1 := Resume(s0, Input(header, [row]), service, addons);
      r1.outcome == Translated
      && r1.store == Present(false, fields, [LineOf(Written(row, OutcomeOf(service, addons)(0, row)), fields)])
  {
    var fields := header + [TranslatedColumn];
    var line := LineOf(Written(row, OutcomeOf(service, addons)(0, row)), fields);
    ResumeOneRow(s0, header, row, service, addons);
    assert Opened(s0, fields) == Present(false, fields, []);
    assert [] + [line] == [line];
  }

  /** A store holding just the line of a keyed record, under fields with `key_id`, has its key complete. */
  lemma LineKeyComplete(rec: Row, fields: seq<string>)
    requires KeyId in rec && KeyId in fields
    ensures rec[KeyId] in CompletedKeys(Present(false, fields, [LineOf(rec, fields)]))
  {
    KeyCell(rec, fields);
    InCompleted(Present(false, fields, [LineOf(rec, fields)]), 0);
  }

  /** A second run on a store without lines appends the record again. */
  lemma SecondRunAppends(header: seq<string>, row: Row, addons: string, service: Service, s1: StoreState)
    requires RequiredColumns(row) && s1.Present? && CompletedKeys(s1) == {}
    ensures row[KeyId] !in CompletedKeys(s1) && Pending([row], CompletedKeys(s1)) == [row]
    ensures var r2 := Resume(s1, Input(header, [row]), service, addons);
      r2.outcome == Translated && r2.store.Present? && |r2.store.lines| == |s1.lines| + 1
  {
    SingleRowPending(row, CompletedKeys(s1));
    ResumeOneRow(s1, header, row, service, addons);
  }

  /** myPayments deletes the only line of a store when its `translation` cell carries a URL. */
  lemma UrlRecordDeleted(fields: seq<string>, line: seq<string>, text: string) returns (s1: StoreState)
    requires Translation in fields && |line| == |fields| && MyPayments.HasUrl(text)
    requires RecordOf(fields, line)[Translation] == text
    ensures Rectangular(Present(false, fields, [line]))
    ensures s1 == PaymentsRewrite(Present(false, fields, [line])) && s1 == Present(false, fields, [])
    ensures CompletedKeys(s1) == {}
  {
    var s := Present(false, fields, [line]);
    var rec := RecordOf(fields, line);
    assert Records(s) == [rec];
    assert MyPayments.Field(rec, "translation") == text;
    assert MyPayments.IsUrlRow(rec);
    assert MyPayments.Filter([rec], MyPayments.IsUrlRow) == [rec] by {
      assert [rec][..0] == [];
    }
    assert MyPayments.Without([rec], MyPayments.Filter([rec], MyPayments.IsSoftposRow) + [rec]) == [] by {
      assert [rec][..0] == [];
    }
    s1 := PaymentsRewrite(s);
  }

  /**
   * Without a fitting header resuming is not idempotent: a record appended
   * under the queue's header to a store with another header reads back
   * with the wrong cell as its `key_id`, so a second run writes it again.
   * Here the store's header is `key_id` alone and the queue's first column
   * is `key_name`, so the appended record reads back with its name as key.
   */
  lemma MismatchedHeaderWritesAgain(stored: string, name: string, key: string, text: string, langs: string,
                                    addons: string, service1: Service, service2: Service)
    requires key != stored && key != name
    ensures var s0 := Present(false, [KeyId], [[stored]]);
      var input := Input(["key_name", KeyId, Translation, Languages],
                         [map["key_name" := name, KeyId := key, Translation := text, Languages := langs]]);
      var r1 := Resume(s0, input, service1, addons);
      var r2 := Resume(r1.store, input, service2, addons);
      r1.outcome == Translated && r2.outcome == Translated && r1.store.Present? && r2.store.Present?
      && |r2.store.lines| == |r1.store.lines| + 1
  {
    var s0 := Present(false, [KeyId], [[stored]]);
    var row := map["key_name" := name, KeyId := key, Translation := text, Languages := langs];
    var header := ["key_name", KeyId, Translation, Languages];
    ForeignHeaderRereads(stored, header, row, addons, service1);
    TranslatedTwice(s0, header, row, addons, service1, service2);
  }

  /**
   * A record whose first field is not its key, appended to a store whose
   * header is `key_id` alone, reads back with that field as its key.
   */
  lemma ForeignHeaderRereads(stored: string, header: seq<string>, row: Row, addons: string, service: Service)
    requires RequiredColumns(row) && |header| > 0 && header[0] in row && header[0] != TranslatedColumn
    requires row[KeyId] != stored && row[KeyId] != row[header[0]]
    ensures var s0 := Present(false, [KeyId], [[stored]]);
      row[KeyId] !in CompletedKeys(s0)
      && row[KeyId] !in CompletedKeys(Resume(s0, Input(header, [row]), service, addons).store)
  {
    var s0 := Present(false, [KeyId], [[stored]]);
    assert row[KeyId] !in CompletedKeys(s0) by {
      assert LastIndex(s0.header, KeyId) == 0;
    }
    var line := ForeignStoreAfterOne(stored, header, row, addons, service);
    var fields := header + [TranslatedColumn];
    WrittenCell(row, OutcomeOf(service, addons)(0, row), fields);
    KeysUnderForeignHeader(Resume(s0, Input(header, [row]), service, addons).store, stored, line);
  }

  /** The store a run over one record leaves behind a store whose header is `key_id` alone. */
  lemma ForeignStoreAfterOne(stored: string, header: seq<string>, row: Row, addons: string, service: Service)
    returns (line: seq<string>)
    requires RequiredColumns(row) && row[KeyId] != stored
    ensures line == LineOf(Written(row, OutcomeOf(service, addons)(0, row)), header + [TranslatedColumn])
    ensures Resume(Present(false, [KeyId], [[stored]]), Input(header, [row]), service, addons).store
            == Present(false, [KeyId], [[stored]] + [line])
  {
    var s0 := Present(false, [KeyId], [[stored]]);
    assert row[KeyId] !in CompletedKeys(s0) by {
      assert LastIndex(s0.header, KeyId) == 0;
    }
    line := LineOf(Written(row, OutcomeOf(service, addons)(0, row)), header + [TranslatedColumn]);
    ResumeOneRow(s0, header, row, service, addons);
  }

  /** A record whose key is complete after neither run is written by both. */
  lemma TranslatedTwice(s0: StoreState, header: seq<string>, row: Row, addons: string, service1: Service, service2: Service)
    requires RequiredColumns(row) && row[KeyId] !in CompletedKeys(s0)
    requires row[KeyId] !in CompletedKeys(Resume(s0, Input(header, [row]), service1, addons).store)
    ensures var r1 := Resume(s0, Input(header, [row]), service1, addons);
      var r2 := Resume(r1.store, Input(header, [row]), service2, addons);
      r1.outcome == Translated && r2.outcome == Translated && r1.store.Present? && r2.store.Present?
      && |r2.store.lines| == |r1.store.lines| + 1
  {
    var fields := header + [TranslatedColumn];
    var r1 := Resume(s0, Input(header, [row]), service1, addons);
    var line1 := LineOf(Written(row, OutcomeOf(service1, addons)(0, row)), fields);
    assert r1.outcome == Translated && r1.store == AppendRows(Opened(s0, fields), [line1]) by {
      ResumeOneRow(s0, header, row, service1, addons);
    }
    assert r1.store.Present? && r1.store.lines == Opened(s0, fields).lines + [line1];
    assert Opened(r1.store, fields) == r1.store;
    var r2 := Resume(r1.store, Input(header, [row]), service2, addons);
    var line2 := LineOf(Written(row, OutcomeOf(service2, addons)(0, row)), fields);
    assert r2.outcome == Translated && r2.store == AppendRows(r1.store, [line2]) by {
      ResumeOneRow(r1.store, header, row, service2, addons);
    }
  }

  /** The first record of a queue of one, appended after `s0` when its key is not complete. */
  lemma ResumeOneRow(s0: StoreState, header: seq<string>, row: Row, service: Service, addons: string)
    requires RequiredColumns(row) && row[KeyId] !in CompletedKeys(s0)
    ensures var r := Resume(s0, Input(header, [row]), service, addons);
      var fields := header + [TranslatedColumn];
      r.outcome == Translated
      && r.store == AppendRows(Opened(s0, fields), [LineOf(Written(row, OutcomeOf(service, addons)(0, row)), fields)])
  {
    var fields := header + [TranslatedColumn];
    var outcome := OutcomeOf(service, addons);
    var w := outcome(0, row);
    var pending := Pending([row], CompletedKeys(s0));
    assert pending == [row] by {
      SingleRowPending(row, CompletedKeys(s0));
    }
    var appended := RowsWork(service, pending, addons).appended;
    assert LinesOf(appended, fields) == [LineOf(Written(row, w), fields)] by {
      OneRowAppended(row, outcome);
    }
  }

  /** The row loop over one record with the required columns appends just that record. */
  lemma OneRowAppended(row: Row, outcome: (nat, Row) -> RowWork)
    requires RequiredColumns(row)
    ensures RowsWith([row], outcome).appended == [Written(row, outcome(0, row))]
  {
    assert [row][..0] == [];
  }

  /** A written record keeps its cells other than `translated`. */
  lemma WrittenCell(row: Row, w: RowWork, fields: seq<string>)
    requires |fields| > 0 && fields[0] in row && fields[0] != TranslatedColumn
    ensures LineOf(Written(row, w), fields)[0] == row[fields[0]]
  {
  }

  /** A store under the header `key_id` alone reads back the first cell of each line as its key. */
  lemma KeysUnderForeignHeader(s: StoreState, stored: string, line: seq<string>)
    requires s == Present(false, [KeyId], [[stored]] + [line]) && |line| > 0
    ensures CompletedKeys(s) == {stored, line[0]}
  {
    assert LastIndex(s.header, KeyId) == 0;
    assert s.lines[0][0] == stored && s.lines[1][0] == line[0];
    forall x | x in CompletedKeys(s) ensures x in {stored, line[0]} {
      var i :| 0 <= i < 2 && 0 < |s.lines[i]| && s.lines[i][0] == x;
    }
  }

  /** A record whose key is not complete is pending on its own. */
  lemma SingleRowPending(row: Row, completed: set<string>)
    requires KeyId in row && row[KeyId] !in completed
    ensures Pending([row], completed) == [row]
  {
    assert [row][..0] == [];
  }
}
