/**
 * The bundled `myPayments` EXTENSION plugin. It copies the rows of
 * `translation_done.csv` that mention SoftPOS, and those that carry a URL,
 * into two side files, and then (unless the user keeps them) rewrites
 * `translation_done.csv` without those rows.
 */
module MyPayments {
  import opened Wrappers
  import opened Text

  /** A `csv.DictReader` row: column name to cell. */
  type Row = map<string, string>

  /** `row.get(field, '')`. */
  function Field(row: Row, field: string): string {
    if field in row then row[field] else ""
  }

  /**
   * Under `re.IGNORECASE`, text character `c` matches the lower-case pattern
   * letter `p`: `p` itself, its ASCII capital, and for 's' also U+017F
   * (long s), which Python's matcher treats as the same letter.
   */
  predicate FoldsTo(c: char, p: char) {
    c == p
    || ('a' <= p <= 'z' && c as int == p as int - 32)
    || (p == 's' && c == '\U{17F}')
  }

  /** `pat` occurs case-insensitively at position `i` of `text`. */
  predicate FoldedAt(text: string, pat: string, i: int) {
    0 <= i && i + |pat| <= |text| && forall j :: 0 <= j < |pat| ==> FoldsTo(text[i + j], pat[j])
  }

  /** `re.search(r'soft[-]?pos', text, re.IGNORECASE)` finds a match. */
  predicate MentionsSoftpos(text: string) {
    exists i :: 0 <= i <= |text| && (FoldedAt(text, "softpos", i) || FoldedAt(text, "soft-pos", i))
  }

  /** `re.search(r'http[s]?://', text)` finds a match (case-sensitive). */
  predicate HasUrl(text: string) {
    Contains(text, "http://") || Contains(text, "https://")
  }

  /** The SoftPOS test over `translated` and `translation`. */
  predicate IsSoftposRow(row: Row) {
    MentionsSoftpos(Field(row, "translated")) || MentionsSoftpos(Field(row, "translation"))
  }

  /** The URL test over `translated` and `translation`. */
  predicate IsUrlRow(row: Row) {
    HasUrl(Field(row, "translated")) || HasUrl(Field(row, "translation"))
  }

  /** A row that neither test picks. */
  predicate IsKeptRow(row: Row) {
    !IsSoftposRow(row) && !IsUrlRow(row)
  }

  /** The rows that satisfy `p`, in file order. */
  function Filter(rows: seq<Row>, p: Row -> bool): (r: seq<Row>)
    ensures |r| <= |rows|
  {
    if |rows| == 0 then []
    else Filter(rows[..|rows| - 1], p) + (if p(rows[|rows| - 1]) then [rows[|rows| - 1]] else [])
  }

  /** A row is picked exactly when it is in the file and passes the test. */
  lemma {:induction false} FilterMembers(rows: seq<Row>, p: Row -> bool, x: Row)
    ensures x in Filter(rows, p) <==> x in rows && p(x)
  {
    if |rows| > 0 {
      var init := rows[..|rows| - 1];
      FilterMembers(init, p, x);
      assert rows == init + [rows[|rows| - 1]];
    }
  }

  /** `[row for row in rows if row not in gone]`. */
  function Without(rows: seq<Row>, gone: seq<Row>): (r: seq<Row>)
    ensures |r| <= |rows|
  {
    if |rows| == 0 then []
    else Without(rows[..|rows| - 1], gone) + (if rows[|rows| - 1] in gone then [] else [rows[|rows| - 1]])
  }

  /** Removing the rows of `gone` is filtering by `p` when `gone` holds exactly the rows that fail `p`. */
  lemma {:induction false} WithoutIsFilter(rows: seq<Row>, gone: seq<Row>, p: Row -> bool)
    requires forall x :: x in rows ==> (x in gone <==> !p(x))
    ensures Without(rows, gone) == Filter(rows, p)
  {
    if |rows| > 0 {
      var init := rows[..|rows| - 1];
      assert forall x :: x in init ==> x in rows;
      WithoutIsFilter(init, gone, p);
      assert rows[|rows| - 1] in rows;
    }
  }

  /** What `filter_translations` collects: the two row lists and their counters. */
  datatype Filtered = Filtered(softposRows: seq<Row>, urlRows: seq<Row>, softposCount: nat, urlCount: nat)

  /** The row loop of `filter_translations`. */
  method FilterRows(rows: seq<Row>) returns (f: Filtered)
    ensures f.softposRows == Filter(rows, IsSoftposRow) && f.urlRows == Filter(rows, IsUrlRow)
    ensures f.softposCount == |f.softposRows| && f.urlCount == |f.urlRows|
  {
    var softpos: seq<Row> := [];
    var url: seq<Row> := [];
    var softposCount, urlCount := 0, 0;
    for i := 0 to |rows|
      invariant softpos == Filter(rows[..i], IsSoftposRow) && softposCount == |softpos|
      invariant url == Filter(rows[..i], IsUrlRow) && urlCount == |url|
    {
      assert rows[..i + 1][..i] == rows[..i];
      var row := rows[i];
      if IsSoftposRow(row) {
        softpos := softpos + [row];
        softposCount := softposCount + 1;
      }
      if IsUrlRow(row) {
        url := url + [row];
        urlCount := urlCount + 1;
      }
    }
    assert rows[..|rows|] == rows;
    f := Filtered(softpos, url, softposCount, urlCount);
  }

  /** `delete_keys`: the rewritten file and the number it reports as deleted. */
  function DeleteKeys(rows: seq<Row>, softposRows: seq<Row>, urlRows: seq<Row>): (r: (seq<Row>, nat))
    ensures r.1 == |softposRows| + |urlRows|
  {
    var toDelete := softposRows + urlRows;
    (Without(rows, toDelete), |toDelete|)
  }

  /**
   * The plugin's effect: the two side files (none when the input cannot be
   * read), the rewritten `translation_done.csv` (none when it is kept) and
   * the reported number of deleted keys.
   */
  datatype PluginRun = PluginRun(sideFiles: Option<(seq<Row>, seq<Row>)>, rewritten: Option<seq<Row>>, deleted: nat)

  /**
   * `filter_translations`, with the answer to the timed prompt of
   * `proceed_with_deletion` given as `keep`.
   */
  method FilterTranslations(doneFile: Option<seq<Row>>, keep: bool) returns (run: PluginRun)
    ensures doneFile.None? ==> run == PluginRun(None, None, 0)
    ensures doneFile.Some? ==>
      var softpos := Filter(doneFile.value, IsSoftposRow);
      var url := Filter(doneFile.value, IsUrlRow);
      run.sideFiles == Some((softpos, url))
      && (keep ==> run.rewritten.None? && run.deleted == 0)
      && (!keep ==> run.rewritten == Some(Without(doneFile.value, softpos + url)) && run.deleted == |softpos| + |url|)
  {
    if doneFile.None? {
      return PluginRun(None, None, 0);
    }
    var f := FilterRows(doneFile.value);
    if keep {
      return PluginRun(Some((f.softposRows, f.urlRows)), None, 0);
    }
    var (remaining, deleted) := DeleteKeys(doneFile.value, f.softposRows, f.urlRows);
    run := PluginRun(Some((f.softposRows, f.urlRows)), Some(remaining), deleted);
  }

  /** A row goes to the SoftPOS file exactly when it mentions SoftPOS, and to the URL file exactly when it has a URL. */
  lemma SideFilesExact(rows: seq<Row>, row: Row)
    ensures row in Filter(rows, IsSoftposRow) <==> row in rows && IsSoftposRow(row)
    ensures row in Filter(rows, IsUrlRow) <==> row in rows && IsUrlRow(row)
  {
    FilterMembers(rows, IsSoftposRow, row);
    FilterMembers(rows, IsUrlRow, row);
  }

  /** The rewritten file holds exactly the rows neither test picks, in their original order. */
  lemma RewrittenKeepsTheRest(rows: seq<Row>)
    ensures Without(rows, Filter(rows, IsSoftposRow) + Filter(rows, IsUrlRow)) == Filter(rows, IsKeptRow)
  {
    var gone := Filter(rows, IsSoftposRow) + Filter(rows, IsUrlRow);
    forall x | x in rows ensures x in gone <==> !IsKeptRow(x) {
      SideFilesExact(rows, x);
    }
    WithoutIsFilter(rows, gone, IsKeptRow);
  }

  /** A sample row that mentions "Soft-POS" and links to a page. */
  const Both: Row := map["translated" := "Soft-POS: https://a.io"]

  lemma BothMatches()
    ensures FoldedAt(Field(Both, "translated"), "soft-pos", 0)
    ensures MatchAt(Field(Both, "translated"), "https://", 10)
  {
    assert Field(Both, "translated") == "Soft-POS: https://a.io";
  }

  /**
   * A row can be in both lists; it is then removed once but counted twice
   * in the reported number of deleted keys.
   */
  lemma RowInBothCountedTwice()
    ensures IsSoftposRow(Both) && IsUrlRow(Both)
    ensures var (remaining, deleted) := DeleteKeys([Both], Filter([Both], IsSoftposRow), Filter([Both], IsUrlRow));
      remaining == [] && deleted == 2
  {
    BothMatches();
    assert MentionsSoftpos(Field(Both, "translated"));
    assert HasUrl(Field(Both, "translated"));
    assert [Both][..0] == [];
  }
}
