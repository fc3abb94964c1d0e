/**
 * The cleanup step (`lokalise_translation_manager/utils/cleanup_unused_keys.py`):
 * the key names the iOS and Android scanners found are merged into one
 * sorted list, the Lokalise keys whose names are not on it are listed for
 * deletion, and after an explicit "y" one delete request carries their ids.
 * Files are given as their rows (None when the file is absent); the
 * confirmation is the answer typed at the prompt.
 */
module CleanupUnusedKeys {
  import opened Wrappers
  import opened Text
  import opened OrderedMaps

  // ---------------------------------------------------------------------
  // load_keys

  /**
   * The first cells of the rows, each cleaned by `clean` (`str.strip` in
   * the run); None when a row has no cell at all (`row[0]` raises
   * `IndexError`, which no caller catches).
   */
  function FirstCells(rows: seq<seq<string>>, clean: string -> string): Option<set<string>> {
    if |rows| == 0 then Some({})
    else
      var prev := FirstCells(rows[..|rows| - 1], clean);
      var row := rows[|rows| - 1];
      if prev.None? || |row| == 0 then None
      else Some(prev.value + {clean(row[0])})
  }

  /** `load_keys`: an absent file gives the empty set. */
  function LoadKeysSpec(file: Option<seq<seq<string>>>): Option<set<string>> {
    if file.None? then Some({}) else FirstCells(file.value, Strip)
  }

  /** The loaded keys are stripped already. */
  lemma {:induction false} LoadedAreStripped(rows: seq<seq<string>>)
    ensures FirstCells(rows, Strip).Some? ==> forall k :: k in FirstCells(rows, Strip).value ==> Strip(k) == k
  {
    if |rows| > 0 {
      LoadedAreStripped(rows[..|rows| - 1]);
      var row := rows[|rows| - 1];
      if |row| > 0 { StripIdempotent(row[0]); }
    }
  }

  /** The rows load exactly when none is empty, and then give the cleaned first cells. */
  lemma {:induction false} FirstCellsMembers(rows: seq<seq<string>>, clean: string -> string)
    ensures FirstCells(rows, clean).Some? <==> forall i :: 0 <= i < |rows| ==> |rows[i]| > 0
    ensures FirstCells(rows, clean).Some? ==>
      forall k :: k in FirstCells(rows, clean).value <==> exists i :: 0 <= i < |rows| && clean(rows[i][0]) == k
  {
    if |rows| > 0 {
      var init := rows[..|rows| - 1];
      FirstCellsMembers(init, clean);
      assert forall i :: 0 <= i < |init| ==> rows[i] == init[i];
      if FirstCells(rows, clean).Some? {
        forall k ensures k in FirstCells(rows, clean).value <==> exists i :: 0 <= i < |rows| && clean(rows[i][0]) == k {
          if k in FirstCells(init, clean).value {
            var i :| 0 <= i < |init| && clean(init[i][0]) == k;
            assert clean(rows[i][0]) == k;
          }
        }
      }
    }
  }

  /** `load_keys`, adding one row's key at a time. */
  method LoadKeys(file: Option<seq<seq<string>>>) returns (keys: Option<set<string>>)
    ensures keys == LoadKeysSpec(file)
  {
    if file.None? {
      return Some({});
    }
    keys := AddFirstCells(file.value, Strip);
  }

  /** The loop of `load_keys` over the rows. */
  method AddFirstCells(rows: seq<seq<string>>, clean: string -> string) returns (keys: Option<set<string>>)
    ensures keys == FirstCells(rows, clean)
  {
    var found: set<string> := {};
    for i := 0 to |rows|
      invariant FirstCells(rows[..i], clean) == Some(found)
    {
      assert rows[..i + 1][..i] == rows[..i];
      if |rows[i]| == 0 {
        assert FirstCells(rows[..i + 1], clean) == None;
        FailsOnward(rows, clean, i + 1);
        return None;
      }
      found := found + {clean(rows[i][0])};
    }
    assert rows[..|rows|] == rows;
    return Some(found);
  }

  /** Once a prefix fails to load, every longer prefix does. */
  lemma {:induction false} FailsOnward(rows: seq<seq<string>>, clean: string -> string, n: nat)
    requires n <= |rows| && FirstCells(rows[..n], clean) == None
    ensures FirstCells(rows, clean) == None
    decreases |rows| - n
  {
    if n < |rows| {
      assert rows[..n + 1][..n] == rows[..n];
      FailsOnward(rows, clean, n + 1);
    } else {
      assert rows[..n] == rows;
    }
  }

  // ---------------------------------------------------------------------
  // sorted(total_keys)

  /** Strictly increasing in Python's string order. */
  predicate StrictlySorted(r: seq<string>) {
    forall i, j :: 0 <= i < j < |r| ==> LexLe(r[i], r[j]) && r[i] != r[j]
  }

  /** Every non-empty set of strings has a least element. */
  lemma MinExists(s: set<string>)
    requires s != {}
    ensures exists m :: m in s && forall y :: y in s ==> LexLe(m, y)
    decreases s
  {
    var x :| x in s;
    if s - {x} != {} {
      MinExists(s - {x});
      var m :| m in s - {x} && forall y :: y in s - {x} ==> LexLe(m, y);
      LeastOfTwo(s, x, m);
    } else {
      OnlyElement(s, x);
    }
  }

  /** The lesser of `x` and the least of the other elements is the least of all. */
  lemma LeastOfTwo(s: set<string>, x: string, m: string)
    requires x in s && m in s && forall y :: y in s - {x} ==> LexLe(m, y)
    ensures exists n :: n in s && forall y :: y in s ==> LexLe(n, y)
  {
    LexTotal(x, m);
    if LexLe(x, m) {
      NewLeast(s, x, m);
      assert x in s && forall y :: y in s ==> LexLe(x, y);
    } else {
      OldLeast(s, x, m);
      assert m in s && forall y :: y in s ==> LexLe(m, y);
    }
  }

  lemma NewLeast(s: set<string>, x: string, m: string)
    requires x in s && LexLe(x, m) && forall y :: y in s - {x} ==> LexLe(m, y)
    ensures forall y :: y in s ==> LexLe(x, y)
  {
    forall y | y in s ensures LexLe(x, y) {
      if y != x {
        assert y in s - {x};
        LexTransitive(x, m, y);
      } else {
        LexTotal(x, x);
      }
    }
  }

  lemma OldLeast(s: set<string>, x: string, m: string)
    requires x in s && LexLe(m, x) && forall y :: y in s - {x} ==> LexLe(m, y)
    ensures forall y :: y in s ==> LexLe(m, y)
  {
    forall y | y in s ensures LexLe(m, y) {
      if y != x { assert y in s - {x}; }
    }
  }

  lemma OnlyElement(s: set<string>, x: string)
    requires x in s && s - {x} == {}
    ensures exists n :: n in s && forall y :: y in s ==> LexLe(n, y)
  {
    forall y | y in s ensures LexLe(x, y) {
      assert y !in s - {x};
      LexTotal(x, x);
    }
    assert x in s && forall y :: y in s ==> LexLe(x, y);
  }

  /** The least element; it is unique, by antisymmetry. */
  ghost function MinOf(s: set<string>): (m: string)
    requires s != {}
    ensures m in s && forall y :: y in s ==> LexLe(m, y)
  {
    MinExists(s);
    var m :| m in s && forall y :: y in s ==> LexLe(m, y);
    m
  }

  /** `sorted(s)` for a set: its elements, least first. */
  ghost function SortedList(s: set<string>): (r: seq<string>)
    ensures forall x :: x in r <==> x in s
    decreases s
  {
    if s == {} then []
    else
      var m := MinOf(s);
      [m] + SortedList(s - {m})
  }

  /** The list is strictly increasing, so each element appears once. */
  lemma {:induction false} SortedListSorted(s: set<string>)
    ensures StrictlySorted(SortedList(s))
    decreases s
  {
    if s != {} {
      var m := MinOf(s);
      var rest := SortedList(s - {m});
      SortedListSorted(s - {m});
      var r := [m] + rest;
      forall i, j | 0 <= i < j < |r| ensures LexLe(r[i], r[j]) && r[i] != r[j] {
        if i == 0 {
          assert r[j] == rest[j - 1] && rest[j - 1] in rest;
        } else {
          assert r[i] == rest[i - 1] && r[j] == rest[j - 1];
        }
      }
    }
  }

  /** `sorted`, by taking out the least remaining key until none is left. */
  method SortedKeys(s: set<string>) returns (r: seq<string>)
    ensures r == SortedList(s)
  {
    r := [];
    var rest := s;
    assert r + SortedList(rest) == SortedList(s);
    while rest != {}
      invariant rest <= s
      invariant r + SortedList(rest) == SortedList(s)
      decreases rest
    {
      MinExists(rest);
      var m :| m in rest && forall y :: y in rest ==> LexLe(m, y);
      assert m == MinOf(rest) by { LexAntisymmetric(m, MinOf(rest)); }
      var later := SortedList(rest - {m});
      assert SortedList(rest) == [m] + later;
      assert (r + [m]) + later == r + ([m] + later);
      r := r + [m];
      rest := rest - {m};
    }
  }

  // ---------------------------------------------------------------------
  // merge_keys

  /** The rows of `total_keys_used_by_both.csv`: one key per row. */
  function Column(keys: seq<string>): (rows: seq<seq<string>>)
    ensures |rows| == |keys| && forall i :: 0 <= i < |keys| ==> rows[i] == [keys[i]]
  {
    if |keys| == 0 then [] else Column(keys[..|keys| - 1]) + [[keys[|keys| - 1]]]
  }

  datatype MergeResult =
    | MergeCrashed               // a scanner report has an empty row
    | NoKeys                     // both reports are empty or absent: nothing is written
    | MergedKeys(total: seq<string>)  // the rows written, in order

  ghost function MergeKeysSpec(iosFile: Option<seq<seq<string>>>, androidFile: Option<seq<seq<string>>>): MergeResult {
    var ios := LoadKeysSpec(iosFile);
    var android := LoadKeysSpec(androidFile);
    if ios.None? || android.None? then MergeCrashed
    else if ios.value == {} && android.value == {} then NoKeys
    else MergedKeys(SortedList(ios.value + android.value))
  }

  /** `merge_keys`. */
  method MergeKeys(iosFile: Option<seq<seq<string>>>, androidFile: Option<seq<seq<string>>>) returns (r: MergeResult)
    ensures r == MergeKeysSpec(iosFile, androidFile)
  {
    var ios := LoadKeys(iosFile);
    if ios.None? {
      return MergeCrashed;
    }
    var android := LoadKeys(androidFile);
    if android.None? {
      return MergeCrashed;
    }
    if ios.value == {} && android.value == {} {
      return NoKeys;
    }
    var total := SortedKeys(ios.value + android.value);
    return MergedKeys(total);
  }

  /** The merged file lists every key of either report once, in increasing order. */
  lemma MergedIsSortedUnion(iosFile: Option<seq<seq<string>>>, androidFile: Option<seq<seq<string>>>)
    requires MergeKeysSpec(iosFile, androidFile).MergedKeys?
    ensures var total := MergeKeysSpec(iosFile, androidFile).total;
      StrictlySorted(total) && |total| > 0
      && forall k :: k in total <==> k in LoadKeysSpec(iosFile).value || k in LoadKeysSpec(androidFile).value
  {
    var u := LoadKeysSpec(iosFile).value + LoadKeysSpec(androidFile).value;
    var k :| k in u;
    assert k in SortedList(u);
    SortedListSorted(u);
  }

  /**
   * Reading the merged file back with `load_keys` gives the set it was
   * written from: its keys are already stripped.
   */
  lemma ReadBackMerged(u: set<string>)
    requires forall k :: k in u ==> Strip(k) == k
    ensures LoadKeysSpec(Some(Column(SortedList(u)))) == Some(u)
  {
    ReadBack(SortedList(u), u, Strip);
  }

  /** Cleaning a column of already clean keys gives their set. */
  lemma ReadBack(total: seq<string>, u: set<string>, clean: string -> string)
    requires forall k :: k in total <==> k in u
    requires forall k :: k in u ==> clean(k) == k
    ensures FirstCells(Column(total), clean) == Some(u)
  {
    var rows := Column(total);
    FirstCellsMembers(rows, clean);
    assert forall i :: 0 <= i < |rows| ==> |rows[i]| > 0;
    var back := FirstCells(rows, clean).value;
    forall k ensures k in back <==> k in u {
      if k in u {
        var i :| 0 <= i < |total| && total[i] == k;
        assert clean(rows[i][0]) == k;
      }
      if k in back {
        var i :| 0 <= i < |rows| && clean(rows[i][0]) == k;
        assert rows[i][0] == total[i] && total[i] in u;
      }
    }
    assert back == u;
  }

  // ---------------------------------------------------------------------
  // filter_lokalise_keys

  /** A row of `lokalise_keys.csv`. */
  datatype KeyRow = KeyRow(keyId: string, keyName: string)

  /** `lokalise_keys[row['key_name']] = row['key_id']` over the rows. */
  function LokaliseKeys(rows: seq<KeyRow>): (m: OMap<string, string>)
    ensures Valid(m)
  {
    if |rows| == 0 then []
    else
      var row := rows[|rows| - 1];
      Put(LokaliseKeys(rows[..|rows| - 1]), row.keyName, row.keyId)
  }

  /** A duplicated name keeps the id of its last row. */
  lemma {:induction false} LokaliseKeysLastWins(rows: seq<KeyRow>, j: nat)
    requires j < |rows| && forall i :: j < i < |rows| ==> rows[i].keyName != rows[j].keyName
    ensures Get(LokaliseKeys(rows), rows[j].keyName) == Some(rows[j].keyId)
  {
    if j < |rows| - 1 {
      LokaliseKeysLastWins(rows[..|rows| - 1], j);
    }
  }

  /** `[(key_id, key_name) for key_name, key_id in lokalise_keys.items() if key_name not in total_keys]`. */
  function Unused(m: OMap<string, string>, used: set<string>): seq<(string, string)> {
    if |m| == 0 then []
    else
      var e := m[|m| - 1];
      Unused(m[..|m| - 1], used) + if e.0 in used then [] else [(e.1, e.0)]
  }

  /** The unused list holds exactly the (id, name) entries of the map whose name is not used. */
  lemma UnusedMembers(m: OMap<string, string>, used: set<string>)
    requires Valid(m)
    ensures forall p :: p in Unused(m, used) <==> Get(m, p.1) == Some(p.0) && p.1 !in used
  {
    forall p ensures p in Unused(m, used) <==> Get(m, p.1) == Some(p.0) && p.1 !in used {
      UnusedHas(m, used, p);
    }
  }

  lemma {:induction false} UnusedHas(m: OMap<string, string>, used: set<string>, p: (string, string))
    requires Valid(m)
    ensures p in Unused(m, used) <==> Get(m, p.1) == Some(p.0) && p.1 !in used
  {
    if |m| > 0 {
      GetLast(m, p.1);
      UnusedHas(m[..|m| - 1], used, p);
    }
  }

  /** Each name is listed at most once. */
  lemma {:induction false} UnusedDistinct(m: OMap<string, string>, used: set<string>)
    requires Valid(m)
    ensures forall i, j :: 0 <= i < j < |Unused(m, used)| ==> Unused(m, used)[i].1 != Unused(m, used)[j].1
  {
    if |m| > 0 {
      var init := m[..|m| - 1];
      var e := m[|m| - 1];
      assert m == init + [e];
      assert Valid(init);
      UnusedDistinct(init, used);
      UnusedNamed(init, used);
      assert !HasKey(init, e.0) by {
        forall i | 0 <= i < |init| ensures init[i].0 != e.0 { assert m[i] == init[i]; }
      }
    }
  }

  /** Every listed name is a key of the map. */
  lemma {:induction false} UnusedNamed(m: OMap<string, string>, used: set<string>)
    ensures forall i :: 0 <= i < |Unused(m, used)| ==> HasKey(m, Unused(m, used)[i].1)
  {
    if |m| > 0 {
      var init := m[..|m| - 1];
      var e := m[|m| - 1];
      UnusedNamed(init, used);
      forall k | HasKey(init, k) ensures HasKey(m, k) {
        assert m == init + [e];
        GetSnoc(init, e, k);
      }
      assert m == init + [e];
      GetSnoc(init, e, e.0);
    }
  }

  /** `filter_lokalise_keys`: None when `lokalise_keys.csv` is absent (its open raises). */
  method FilterLokaliseKeys(used: set<string>, lokaliseFile: Option<seq<KeyRow>>) returns (unused: Option<seq<(string, string)>>)
    ensures lokaliseFile.None? ==> unused.None?
    ensures lokaliseFile.Some? ==> unused == Some(Unused(LokaliseKeys(lokaliseFile.value), used))
  {
    if lokaliseFile.None? {
      return None;
    }
    var rows := lokaliseFile.value;
    var keys: OMap<string, string> := [];
    for i := 0 to |rows|
      invariant keys == LokaliseKeys(rows[..i])
    {
      assert rows[..i + 1][..i] == rows[..i];
      keys := Put(keys, rows[i].keyName, rows[i].keyId);
    }
    assert rows[..|rows|] == rows;
    return Some(Unused(keys, used));
  }

  // ---------------------------------------------------------------------
  // delete_keys_from_lokalise and main

  /** `user_config.json`: absent, or the Lokalise project id and token ("" when missing). */
  datatype Config = NoConfigFile | Config(projectId: string, apiKey: string)

  /** The DELETE request: project and the key ids of the body. */
  datatype DeleteRequest = DeleteRequest(projectId: string, keyIds: seq<string>)

  /** `[key_id for key_id, _ in keys_to_delete]`. */
  function Payload(keys: seq<(string, string)>): (ids: seq<string>)
    ensures |ids| == |keys| && forall i :: 0 <= i < |keys| ==> ids[i] == keys[i].0
  {
    if |keys| == 0 then [] else Payload(keys[..|keys| - 1]) + [keys[|keys| - 1].0]
  }

  /** The answer `y`, after `strip().lower()`. */
  predicate Confirmed(answer: string) {
    Lower(Strip(answer)) == "y"
  }

  datatype Outcome =
    | Crashed             // an exception escapes: empty report row, no `lokalise_keys.csv`, no config file
    | NoKeysFound         // `merge_keys` returned False
    | NoUnusedKeys        // nothing to delete
    | Declined            // any answer but y
    | MissingCredentials  // the config lacks the project id or the token
    | DeleteSent(request: DeleteRequest)

  /** What `main` leaves: its outcome and the two files it wrote. */
  datatype CleanupRun = CleanupRun(outcome: Outcome, totalKeys: Option<seq<string>>, deletable: Option<seq<(string, string)>>)

  /** `delete_keys_from_lokalise` once confirmed. */
  function DeleteSpec(config: Config, keys: seq<(string, string)>): Outcome {
    match config
    case NoConfigFile => Crashed
    case Config(projectId, apiKey) =>
      if projectId == "" || apiKey == "" then MissingCredentials
      else DeleteSent(DeleteRequest(projectId, Payload(keys)))
  }

  /** `main` after `merge_keys` has returned `merged`. */
  function AfterMerge(merged: MergeResult, lokaliseFile: Option<seq<KeyRow>>, config: Config, answer: string): CleanupRun {
    match merged
    case MergeCrashed => CleanupRun(Crashed, None, None)
    case NoKeys => CleanupRun(NoKeysFound, None, None)
    case MergedKeys(total) =>
      var used := LoadKeysSpec(Some(Column(total)));
      if used.None? || lokaliseFile.None? then CleanupRun(Crashed, Some(total), None)
      else Decide(total, Unused(LokaliseKeys(lokaliseFile.value), used.value), config, Confirmed(answer))
  }

  /** The end of `main` once the unused keys are known. */
  function Decide(total: seq<string>, unused: seq<(string, string)>, config: Config, confirmed: bool): CleanupRun {
    if unused == [] then CleanupRun(NoUnusedKeys, Some(total), Some(unused))
    else if !confirmed then CleanupRun(Declined, Some(total), Some(unused))
    else CleanupRun(DeleteSpec(config, unused), Some(total), Some(unused))
  }

  ghost function CleanupSpec(iosFile: Option<seq<seq<string>>>, androidFile: Option<seq<seq<string>>>,
                             lokaliseFile: Option<seq<KeyRow>>, config: Config, answer: string): CleanupRun {
    AfterMerge(MergeKeysSpec(iosFile, androidFile), lokaliseFile, config, answer)
  }

  /** `main`. */
  method Cleanup(iosFile: Option<seq<seq<string>>>, androidFile: Option<seq<seq<string>>>,
                 lokaliseFile: Option<seq<KeyRow>>, config: Config, answer: string) returns (run: CleanupRun)
    ensures run == CleanupSpec(iosFile, androidFile, lokaliseFile, config, answer)
  {
    var merged := MergeKeys(iosFile, androidFile);
    if merged.MergeCrashed? {
      return CleanupRun(Crashed, None, None);
    }
    if merged.NoKeys? {
      return CleanupRun(NoKeysFound, None, None);
    }
    var total := merged.total;
    var used := LoadKeys(Some(Column(total)));
    if used.None? {
      return CleanupRun(Crashed, Some(total), None);
    }
    var unused := FilterLokaliseKeys(used.value, lokaliseFile);
    if unused.None? {
      return CleanupRun(Crashed, Some(total), None);
    }
    if unused.value == [] {
      return CleanupRun(NoUnusedKeys, Some(total), unused);
    }
    if Lower(Strip(answer)) != "y" {
      return CleanupRun(Declined, Some(total), unused);
    }
    var outcome := DeleteKeysFromLokalise(config, unused.value);
    return CleanupRun(outcome, Some(total), unused);
  }

  /** `delete_keys_from_lokalise`: the request is built from the ids in list order. */
  method DeleteKeysFromLokalise(config: Config, keys: seq<(string, string)>) returns (outcome: Outcome)
    ensures outcome == DeleteSpec(config, keys)
  {
    if config.NoConfigFile? {
      return Crashed;
    }
    if config.projectId == "" || config.apiKey == "" {
      return MissingCredentials;
    }
    var ids: seq<string> := [];
    for i := 0 to |keys|
      invariant ids == Payload(keys[..i])
    {
      assert keys[..i + 1][..i] == keys[..i];
      ids := ids + [keys[i].0];
    }
    assert keys[..|keys|] == keys;
    return DeleteSent(DeleteRequest(config.projectId, ids));
  }

  // ---------------------------------------------------------------------
  // Properties of a run

  /**
   * A delete request goes out only after the answer y, only for a
   * non-empty list of unused keys, and carries exactly their ids in order.
   */
  lemma DeleteOnlyWhenConfirmed(merged: MergeResult, lokaliseFile: Option<seq<KeyRow>>, config: Config, answer: string)
    ensures var run := AfterMerge(merged, lokaliseFile, config, answer);
      run.outcome.DeleteSent? ==>
        Confirmed(answer) && run.deletable.Some? && run.deletable.value != []
        && run.outcome.request.keyIds == Payload(run.deletable.value)
  {
    if merged.MergedKeys? {
      var used := LoadKeysSpec(Some(Column(merged.total)));
      if used.Some? && lokaliseFile.Some? {
        DecideSendsOnlyWhenConfirmed(merged.total, Unused(LokaliseKeys(lokaliseFile.value), used.value), config, Confirmed(answer));
      }
    }
  }

  lemma DecideSendsOnlyWhenConfirmed(total: seq<string>, unused: seq<(string, string)>, config: Config, confirmed: bool)
    ensures var run := Decide(total, unused, config, confirmed);
      run.outcome.DeleteSent? ==>
        confirmed && run.deletable == Some(unused) && unused != [] && run.outcome.request.keyIds == Payload(unused)
  {
  }

  /** A failed merge writes nothing further; an empty unused list sends nothing. */
  lemma StopsEarly(merged: MergeResult, lokaliseFile: Option<seq<KeyRow>>, config: Config, answer: string)
    ensures var run := AfterMerge(merged, lokaliseFile, config, answer);
      (!merged.MergedKeys? ==> run.deletable.None? && run.totalKeys.None?)
      && (run.deletable == Some([]) ==> run.outcome == NoUnusedKeys)
  {
  }

  /**
   * With both reports and the Lokalise keys readable, the deletion list is
   * exactly the Lokalise keys named in neither report.
   */
  lemma DeletableAreUnused(iosFile: Option<seq<seq<string>>>, androidFile: Option<seq<seq<string>>>,
                           lokaliseRows: seq<KeyRow>, config: Config, answer: string)
    requires MergeKeysSpec(iosFile, androidFile).MergedKeys?
    ensures var run := CleanupSpec(iosFile, androidFile, Some(lokaliseRows), config, answer);
      var used := LoadKeysSpec(iosFile).value + LoadKeysSpec(androidFile).value;
      run.deletable == Some(Unused(LokaliseKeys(lokaliseRows), used))
  {
    var ios := LoadKeysSpec(iosFile).value;
    var android := LoadKeysSpec(androidFile).value;
    var total := SortedList(ios + android);
    assert MergeKeysSpec(iosFile, androidFile) == MergedKeys(total);
    if iosFile.Some? { LoadedAreStripped(iosFile.value); }
    if androidFile.Some? { LoadedAreStripped(androidFile.value); }
    ReadBackMerged(ios + android);
    assert CleanupSpec(iosFile, androidFile, Some(lokaliseRows), config, answer)
        == AfterMerge(MergedKeys(total), Some(lokaliseRows), config, answer);
    DeletableAfterMerge(total, ios + android, lokaliseRows, config, answer);
  }

  /** After a merge whose file reads back as `used`, the deletion list is the unused Lokalise keys. */
  lemma DeletableAfterMerge(total: seq<string>, used: set<string>, lokaliseRows: seq<KeyRow>, config: Config, answer: string)
    requires LoadKeysSpec(Some(Column(total))) == Some(used)
    ensures AfterMerge(MergedKeys(total), Some(lokaliseRows), config, answer).deletable == Some(Unused(LokaliseKeys(lokaliseRows), used))
  {
    var unused := Unused(LokaliseKeys(lokaliseRows), used);
    assert AfterMerge(MergedKeys(total), Some(lokaliseRows), config, answer) == Decide(total, unused, config, Confirmed(answer));
    DecideReportsList(total, unused, config, Confirmed(answer));
  }

  /** Whatever is decided, the deletion list is reported. */
  lemma DecideReportsList(total: seq<string>, unused: seq<(string, string)>, config: Config, confirmed: bool)
    ensures Decide(total, unused, config, confirmed).deletable == Some(unused)
  {
  }
}
