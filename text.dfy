/**
 * The handful of Python `str` operations the tool relies on, written out so
 * that their edge cases (empty pieces, separators inside values) are visible:
 * `strip`, `strip(c)`, `split(sep)`, `sep.join`, `in`, `replace`,
 * `endswith`, `lower` and the word count `len(s.split())`.
 */
module Text {
  import opened Wrappers

  /** Python's `str.isspace` for one character. */
  predicate IsSpace(c: char) {
    c == ' ' || ('\t' <= c <= '\r') || ('\U{1c}' <= c <= '\U{1f}')
    || c == '\U{85}' || c == '\U{a0}' || c == '\U{1680}'
    || ('\U{2000}' <= c <= '\U{200a}') || c == '\U{2028}' || c == '\U{2029}'
    || c == '\U{202f}' || c == '\U{205f}' || c == '\U{3000}'
  }

  /** Drops the leading characters that satisfy `drop`. */
  function TrimStart(s: string, drop: char -> bool): (r: string)
    ensures |r| <= |s| && r == s[|s| - |r|..]
    ensures |r| > 0 ==> !drop(r[0])
    ensures |s| > 0 && drop(s[0]) ==> |r| < |s|
  {
    if |s| > 0 && drop(s[0]) then
      var r := TrimStart(s[1..], drop);
      assert s[1..][|s| - 1 - |r|..] == s[|s| - |r|..];
      r
    else s
  }

  /** Drops the trailing characters that satisfy `drop`. */
  function TrimEnd(s: string, drop: char -> bool): (r: string)
    ensures |r| <= |s| && r == s[..|r|]
    ensures |r| > 0 ==> !drop(r[|r| - 1])
  {
    if |s| > 0 && drop(s[|s| - 1]) then TrimEnd(s[..|s| - 1], drop) else s
  }

  /** Everything `TrimStart` removes satisfies `drop`. */
  lemma {:induction false} TrimStartDropped(s: string, drop: char -> bool)
    ensures forall i :: 0 <= i < |s| - |TrimStart(s, drop)| ==> drop(s[i])
  {
    if |s| > 0 && drop(s[0]) {
      TrimStartDropped(s[1..], drop);
      assert forall i :: 1 <= i < |s| ==> s[i] == s[1..][i - 1];
    }
  }

  /** Everything `TrimEnd` removes satisfies `drop`. */
  lemma {:induction false} TrimEndDropped(s: string, drop: char -> bool)
    ensures forall i :: |TrimEnd(s, drop)| <= i < |s| ==> drop(s[i])
  {
    if |s| > 0 && drop(s[|s| - 1]) {
      TrimEndDropped(s[..|s| - 1], drop);
    }
  }

  /** Python's `s.strip()`. */
  function Strip(s: string): string {
    TrimEnd(TrimStart(s, IsSpace), IsSpace)
  }

  /** Python's `s.strip(c)` for a one-character argument. */
  function StripChar(s: string, c: char): string {
    TrimEnd(TrimStart(s, x => x == c), x => x == c)
  }

  /** Python's `s.strip().lower()` style case folding, for ASCII letters. */
  function Lower(s: string): (r: string)
    ensures |r| == |s|
  {
    if |s| == 0 then ""
    else [if 'A' <= s[0] <= 'Z' then (s[0] as int + 32) as char else s[0]] + Lower(s[1..])
  }

  predicate MatchAt(s: string, pat: string, j: int) {
    0 <= j && j + |pat| <= |s| && s[j..j + |pat|] == pat
  }

  function FindFrom(s: string, pat: string, i: nat): (r: Option<nat>)
    requires forall j :: 0 <= j < i ==> !MatchAt(s, pat, j)
    ensures r.Some? ==> MatchAt(s, pat, r.value) && forall j :: 0 <= j < r.value ==> !MatchAt(s, pat, j)
    ensures r.None? ==> forall j :: !MatchAt(s, pat, j)
    decreases |s| - i
  {
    if i + |pat| > |s| then None
    else if s[i..i + |pat|] == pat then Some(i)
    else FindFrom(s, pat, i + 1)
  }

  /** Position of the first occurrence of `pat` in `s` (Python's `s.find(pat)`). */
  function Find(s: string, pat: string): (r: Option<nat>)
    ensures r.Some? ==> MatchAt(s, pat, r.value) && forall j :: 0 <= j < r.value ==> !MatchAt(s, pat, j)
    ensures r.None? ==> forall j :: !MatchAt(s, pat, j)
  {
    FindFrom(s, pat, 0)
  }

  /** Python's `pat in s`. */
  predicate Contains(s: string, pat: string) {
    Find(s, pat).Some?
  }

  predicate StartsWith(s: string, prefix: string) {
    |prefix| <= |s| && s[..|prefix|] == prefix
  }

  predicate EndsWith(s: string, suffix: string) {
    |suffix| <= |s| && s[|s| - |suffix|..] == suffix
  }

  /** Python's `s.split(sep)` for a non-empty separator. */
  function Split(s: string, sep: string): (r: seq<string>)
    requires |sep| > 0
    ensures |r| >= 1
    decreases |s|
  {
    match Find(s, sep)
    case None => [s]
    case Some(i) => [s[..i]] + Split(s[i + |sep|..], sep)
  }

  /** A text holding the separator character splits into at least two pieces. */
  lemma SplitAtChar(s: string, c: char)
    requires c in s
    ensures |Split(s, [c])| >= 2
  {
    var i :| 0 <= i < |s| && s[i] == c;
    assert s[i..i + 1] == [c];
    assert MatchAt(s, [c], i);
    assert Find(s, [c]).Some?;
  }

  /** No piece of `s.split(c)` holds the separator character. */
  lemma {:induction false} SplitPartsLack(s: string, c: char)
    ensures forall i :: 0 <= i < |Split(s, [c])| ==> c !in Split(s, [c])[i]
    decreases |s|
  {
    match Find(s, [c])
    case None =>
      forall j | 0 <= j < |s| ensures s[j] != c {
        assert !MatchAt(s, [c], j);
        assert s[j..j + 1] == [s[j]];
      }
    case Some(i) =>
      forall j | 0 <= j < i ensures s[j] != c {
        assert !MatchAt(s, [c], j);
        assert s[j..j + 1] == [s[j]];
      }
      SplitPartsLack(s[i + 1..], c);
      assert Split(s, [c]) == [s[..i]] + Split(s[i + 1..], [c]);
  }

  /** Trimming only removes characters. */
  lemma TrimLacks(s: string, c: char, drop: char -> bool)
    requires c !in s
    ensures c !in TrimStart(s, drop) && c !in TrimEnd(s, drop)
  {
    var t := TrimStart(s, drop);
    var r := TrimEnd(s, drop);
    forall j | 0 <= j < |t| ensures t[j] != c { assert t[j] == s[|s| - |t| + j]; }
    forall j | 0 <= j < |r| ensures r[j] != c { assert r[j] == s[j]; }
  }

  /** Stripping only removes characters. */
  lemma StripLacks(s: string, c: char, d: char)
    requires c !in s
    ensures c !in Strip(s) && c !in StripChar(s, d)
  {
    TrimLacks(s, c, IsSpace);
    TrimLacks(TrimStart(s, IsSpace), c, IsSpace);
    TrimLacks(s, c, x => x == d);
    TrimLacks(TrimStart(s, x => x == d), c, x => x == d);
  }

  /** `s.strip(c)` neither starts nor ends with `c`. */
  lemma StripCharEnds(s: string, c: char)
    ensures var r := StripChar(s, c); |r| > 0 ==> r[0] != c && r[|r| - 1] != c
  {
    var t := TrimStart(s, x => x == c);
    var r := TrimEnd(t, x => x == c);
    if |r| > 0 { assert r[0] == t[0]; }
  }

  /** Text that does not start with a dropped character is left alone. */
  lemma TrimStartKeeps(s: string, drop: char -> bool)
    requires |s| == 0 || !drop(s[0])
    ensures TrimStart(s, drop) == s
  {
  }

  /** Text that does not end with a dropped character is left alone. */
  lemma TrimEndKeeps(s: string, drop: char -> bool)
    requires |s| == 0 || !drop(s[|s| - 1])
    ensures TrimEnd(s, drop) == s
  {
  }

  /** Text with no white space at either end is its own `strip()`. */
  lemma StripKeeps(s: string)
    requires |s| == 0 || (!IsSpace(s[0]) && !IsSpace(s[|s| - 1]))
    ensures Strip(s) == s
  {
    TrimStartKeeps(s, IsSpace);
    TrimEndKeeps(s, IsSpace);
  }

  /** `s.strip().strip()` is `s.strip()`. */
  lemma StripIdempotent(s: string)
    ensures Strip(Strip(s)) == Strip(s)
  {
    var t := TrimStart(s, IsSpace);
    var r := TrimEnd(t, IsSpace);
    if |r| > 0 {
      assert r[0] == t[0];
    }
    TrimStartKeeps(r, IsSpace);
    TrimEndKeeps(r, IsSpace);
  }

  /** Python's `a <= b` on `str`: code point by code point, a prefix first. */
  predicate LexLe(a: string, b: string) {
    |a| == 0 || (|b| > 0 && (a[0] < b[0] || (a[0] == b[0] && LexLe(a[1..], b[1..]))))
  }

  lemma {:induction false} LexTotal(a: string, b: string)
    ensures LexLe(a, b) || LexLe(b, a)
  {
    if |a| > 0 && |b| > 0 && a[0] == b[0] { LexTotal(a[1..], b[1..]); }
  }

  lemma {:induction false} LexAntisymmetric(a: string, b: string)
    requires LexLe(a, b) && LexLe(b, a)
    ensures a == b
  {
    if |a| > 0 && |b| > 0 {
      LexAntisymmetric(a[1..], b[1..]);
      assert a == [a[0]] + a[1..] && b == [b[0]] + b[1..];
    }
  }

  lemma {:induction false} LexTransitive(a: string, b: string, c: string)
    requires LexLe(a, b) && LexLe(b, c)
    ensures LexLe(a, c)
  {
    if |a| > 0 && |b| > 0 && |c| > 0 && a[0] == b[0] && b[0] == c[0] {
      LexTransitive(a[1..], b[1..], c[1..]);
    }
  }

  /** Python's `sep.join(parts)`. */
  function Join(parts: seq<string>, sep: string): string {
    if |parts| == 0 then ""
    else if |parts| == 1 then parts[0]
    else parts[0] + sep + Join(parts[1..], sep)
  }

  /** `[p.strip() for p in parts if p.strip()]`. */
  function StrippedNonBlank(parts: seq<string>): (r: seq<string>)
    ensures |r| <= |parts|
    ensures forall i :: 0 <= i < |r| ==> r[i] != ""
  {
    if |parts| == 0 then []
    else
      var init := StrippedNonBlank(parts[..|parts| - 1]);
      var p := Strip(parts[|parts| - 1]);
      if p != "" then init + [p] else init
  }

  /** `[p.strip() for p in s.split(sep) if p.strip()]`. */
  function SplitStripped(s: string, sep: string): seq<string>
    requires |sep| > 0
  {
    StrippedNonBlank(Split(s, sep))
  }

  /** Stripping and dropping blanks keeps out a character the pieces lack. */
  lemma {:induction false} StrippedNonBlankLacks(parts: seq<string>, c: char)
    requires forall i :: 0 <= i < |parts| ==> c !in parts[i]
    ensures forall i :: 0 <= i < |StrippedNonBlank(parts)| ==> c !in StrippedNonBlank(parts)[i]
  {
    if |parts| > 0 {
      var init := parts[..|parts| - 1];
      assert forall i :: 0 <= i < |init| ==> init[i] == parts[i];
      StrippedNonBlankLacks(init, c);
      var p := Strip(parts[|parts| - 1]);
      StripLacks(parts[|parts| - 1], c, c);
      assert StrippedNonBlank(parts) == if p != "" then StrippedNonBlank(init) + [p] else StrippedNonBlank(init);
    }
  }

  /** No piece of `[p.strip() for p in s.split(c) if p.strip()]` holds `c`. */
  lemma SplitStrippedLacks(s: string, c: char)
    ensures forall i :: 0 <= i < |SplitStripped(s, [c])| ==> c !in SplitStripped(s, [c])[i]
  {
    SplitPartsLack(s, c);
    StrippedNonBlankLacks(Split(s, [c]), c);
  }

  /** Python's `s.replace(pat, rep)`: every non-overlapping occurrence, left to right. */
  function ReplaceAll(s: string, pat: string, rep: string): string
    requires |pat| > 0
  {
    Join(Split(s, pat), rep)
  }

  /**
   * A piece can be joined with `sep` and split back out: the first
   * occurrence of `sep` in `p + sep` is the appended one.
   */
  predicate SepFree(p: string, sep: string) {
    Find(p + sep, sep) == Some(|p|)
  }

  lemma SepFreeHasNoSep(p: string, sep: string)
    requires |sep| > 0 && SepFree(p, sep)
    ensures Find(p, sep).None?
  {
    if Find(p, sep).Some? {
      var j := Find(p, sep).value;
      assert j < |p|;
      assert (p + sep)[j..j + |sep|] == p[j..j + |sep|];
      assert MatchAt(p + sep, sep, j);
    }
  }

  lemma FindAfterSepFree(p: string, sep: string, rest: string)
    requires |sep| > 0 && SepFree(p, sep)
    ensures Find(p + sep + rest, sep) == Some(|p|)
  {
    var s := p + sep + rest;
    assert s[|p|..|p| + |sep|] == sep;
    assert MatchAt(s, sep, |p|);
    forall j | 0 <= j < |p| ensures !MatchAt(s, sep, j) {
      assert s[j..j + |sep|] == (p + sep)[j..j + |sep|];
      assert !MatchAt(p + sep, sep, j);
    }
  }

  /** Splitting what `Join` produced gives the pieces back. */
  lemma {:induction false} SplitJoin(parts: seq<string>, sep: string)
    requires |parts| >= 1 && |sep| > 0
    requires forall i :: 0 <= i < |parts| ==> SepFree(parts[i], sep)
    ensures Split(Join(parts, sep), sep) == parts
  {
    if |parts| == 1 {
      SepFreeHasNoSep(parts[0], sep);
    } else {
      var rest := Join(parts[1..], sep);
      FindAfterSepFree(parts[0], sep, rest);
      var s := parts[0] + sep + rest;
      assert s[..|parts[0]|] == parts[0];
      assert s[|parts[0]| + |sep|..] == rest;
      SplitJoin(parts[1..], sep);
    }
  }

  lemma JoinCons(p: string, rest: seq<string>, sep: string)
    requires |rest| >= 1
    ensures Join([p] + rest, sep) == p + sep + Join(rest, sep)
  {
    assert ([p] + rest)[1..] == rest;
  }

  /** Joining what `Split` produced gives the text back. */
  lemma {:induction false} JoinSplit(s: string, sep: string)
    requires |sep| > 0
    ensures Join(Split(s, sep), sep) == s
    decreases |s|
  {
    match Find(s, sep)
    case None =>
    case Some(i) =>
      var tail := s[i + |sep|..];
      var rest := Split(tail, sep);
      JoinSplit(tail, sep);
      assert Split(s, sep) == [s[..i]] + rest;
      JoinCons(s[..i], rest, sep);
      assert s == s[..i] + sep + tail by {
        assert s[i..i + |sep|] == sep;
      }
  }

  /** A piece without the character `c` is safe for the separator `[c]`. */
  lemma CharSepFree(p: string, c: char)
    requires c !in p
    ensures SepFree(p, [c])
  {
    var s := p + [c];
    assert MatchAt(s, [c], |p|);
    forall j | 0 <= j < |p| ensures !MatchAt(s, [c], j) {
      assert s[j..j + 1] == [p[j]];
    }
  }

  /** The separator ", " has no border, so a piece that lacks it is safe. */
  lemma CommaSpaceSepFree(p: string)
    requires !Contains(p, ", ")
    ensures SepFree(p, ", ")
  {
    var s := p + ", ";
    assert s[|p|..|p| + 2] == ", ";
    assert MatchAt(s, ", ", |p|);
    forall j | 0 <= j < |p| ensures !MatchAt(s, ", ", j) {
      if j + 2 <= |p| {
        assert s[j..j + 2] == p[j..j + 2];
        assert !MatchAt(p, ", ", j);
      } else {
        assert s[j + 1] == ',';
      }
    }
  }

  /** Drops leading whitespace. */
  function DropSpaces(s: string): (r: string)
    ensures |r| <= |s|
  {
    if |s| > 0 && IsSpace(s[0]) then DropSpaces(s[1..]) else s
  }

  /** Drops a leading run of non-whitespace characters. */
  function DropWord(s: string): (r: string)
    ensures |r| <= |s|
    ensures |s| > 0 && !IsSpace(s[0]) ==> |r| < |s|
  {
    if |s| > 0 && !IsSpace(s[0]) then DropWord(s[1..]) else s
  }

  /** Python's `len(s.split())`: the number of maximal runs of non-space characters. */
  function WordCount(s: string): (r: nat)
    ensures r <= |s|
    decreases |s|
  {
    var t := DropSpaces(s);
    if |t| == 0 then 0 else 1 + WordCount(DropWord(t))
  }

  lemma {:induction false} DropSpacesEmpty(s: string)
    ensures DropSpaces(s) == "" <==> forall i :: 0 <= i < |s| ==> IsSpace(s[i])
  {
    if |s| > 0 {
      DropSpacesEmpty(s[1..]);
      assert forall i :: 1 <= i < |s| ==> s[i] == s[1..][i - 1];
    }
  }

  /** A text has no words exactly when it is all whitespace. */
  lemma WordCountZero(s: string)
    ensures WordCount(s) == 0 <==> forall i :: 0 <= i < |s| ==> IsSpace(s[i])
  {
    DropSpacesEmpty(s);
  }

  /** Decimal rendering of a natural number, as Python's `str(n)`. */
  function NatToString(n: nat): (r: string)
    ensures |r| >= 1
    ensures forall i :: 0 <= i < |r| ==> '0' <= r[i] <= '9'
  {
    var d := [(48 + n % 10) as char];
    if n < 10 then d else NatToString(n / 10) + d
  }
}
