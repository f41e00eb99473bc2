/**
 * The JavaScript string operations the detector relies on: the `\s` character
 * class, `trim()`, `split(/\s+/)`, `substring`, `replace(/\n/g, ' ')` and the
 * decimal rendering of a number inside a template string. A `char` here stands
 * for one UTF-16 code unit of a JavaScript string.
 */
module Text {

  const SpaceChars: set<char> := {
    '\t', '\n', '\U{000B}', '\U{000C}', '\r', ' ', '\U{00A0}', '\U{1680}', '\U{2000}', '\U{2001}', '\U{2002}', '\U{2003}', '\U{2004}', '\U{2005}', '\U{2006}', '\U{2007}', '\U{2008}', '\U{2009}', '\U{200A}', '\U{2028}', '\U{2029}', '\U{202F}', '\U{205F}', '\U{3000}', '\U{FEFF}'
  }

  /**
   * The characters matched by the regular expression class `\s` and removed by
   * `trim()`: ECMAScript WhiteSpace and LineTerminator.
   */
  predicate IsSpace(c: char) {
    c in SpaceChars
  }

  /** Every character of `s[lo..hi]` is whitespace. */
  ghost predicate AllSpaceIn(s: string, lo: nat, hi: nat)
    requires lo <= hi <= |s|
  {
    forall i :: lo <= i < hi ==> IsSpace(s[i])
  }

  /** No character of `s[lo..hi]` is whitespace. */
  ghost predicate NoSpaceIn(s: string, lo: nat, hi: nat)
    requires lo <= hi <= |s|
  {
    forall i :: lo <= i < hi ==> !IsSpace(s[i])
  }

  /** The end of the whitespace run that starts at `i`. */
  function SkipSpace(s: string, i: nat): (r: nat)
    requires i <= |s|
    ensures i <= r <= |s| && AllSpaceIn(s, i, r)
    ensures r < |s| ==> !IsSpace(s[r])
    decreases |s| - i
  {
    if i < |s| && IsSpace(s[i]) then SkipSpace(s, i + 1) else i
  }

  /** The end of the non-whitespace run that starts at `i`. */
  function SkipWord(s: string, i: nat): (r: nat)
    requires i <= |s|
    ensures i <= r <= |s| && NoSpaceIn(s, i, r)
    ensures r < |s| ==> IsSpace(s[r])
    decreases |s| - i
  {
    if i < |s| && !IsSpace(s[i]) then SkipWord(s, i + 1) else i
  }

  /** The start of the whitespace run that ends at `e`. */
  function SkipSpaceBack(s: string, e: nat): (r: nat)
    requires e <= |s|
    ensures r <= e && AllSpaceIn(s, r, e)
    ensures r > 0 ==> !IsSpace(s[r - 1])
  {
    if e > 0 && IsSpace(s[e - 1]) then SkipSpaceBack(s, e - 1) else e
  }

  /** The start of the non-whitespace run that ends at `e`. */
  function SkipWordBack(s: string, e: nat): (r: nat)
    requires e <= |s|
    ensures r <= e && NoSpaceIn(s, r, e)
    ensures r > 0 ==> IsSpace(s[r - 1])
  {
    if e > 0 && !IsSpace(s[e - 1]) then SkipWordBack(s, e - 1) else e
  }

  /**
   * `String.prototype.trim`: the text without its leading and trailing
   * whitespace. It is empty exactly for a blank text, and otherwise starts and
   * ends with a non-whitespace character.
   */
  function Trim(s: string): (r: string)
    ensures r == [] <==> AllSpaceIn(s, 0, |s|)
    ensures r != [] ==> !IsSpace(r[0]) && !IsSpace(r[|r| - 1])
    ensures exists a, e :: 0 <= a <= e <= |s| && r == s[a..e] && AllSpaceIn(s, 0, a) && AllSpaceIn(s, e, |s|)
  {
    var a := SkipSpace(s, 0);
    if a == |s| then
      assert s[a..a] == [];
      []
    else
      var e := SkipSpaceBack(s, |s|);
      assert a < e;
      s[a..e]
  }

  /** A half-open range `[start, end)` of text indices. */
  datatype Span = Span(start: nat, end: nat)

  /**
   * `r` marks how `split(/\s+/)` cuts `s[i..]`, in text order: the first piece
   * starts at `i` and the last ends at the end of the text; no piece holds
   * whitespace, and consecutive pieces are separated by a non-empty whitespace
   * run, and every piece but the first and the last is non-empty. So each piece
   * is a maximal non-whitespace run; only the first (when `s[i]` is whitespace)
   * or the last (when the text ends in whitespace) can be empty, as in
   * JavaScript.
   */
  ghost predicate CutsAt(s: string, i: nat, r: seq<Span>) {
    && |r| >= 1 && r[0].start == i && r[|r| - 1].end == |s|
    && (forall k :: 0 <= k < |r| ==> i <= r[k].start <= r[k].end <= |s| && NoSpaceIn(s, r[k].start, r[k].end))
    && (forall k :: 0 <= k < |r| - 1 ==> r[k].end < r[k + 1].start && AllSpaceIn(s, r[k].end, r[k + 1].start))
    && (forall k :: 0 < k < |r| - 1 ==> r[k].start < r[k].end)
  }

  lemma ConsCut(s: string, i: nat, k: nat, j: nat, rest: seq<Span>)
    requires i <= k < j <= |s| && NoSpaceIn(s, i, k) && AllSpaceIn(s, k, j)
    requires j == |s| || !IsSpace(s[j])
    requires CutsAt(s, j, rest)
    ensures CutsAt(s, i, [Span(i, k)] + rest)
  {
    var r := [Span(i, k)] + rest;
    if |rest| >= 2 {
      // the gap after the old first piece starts with whitespace, so that piece is not empty
      var e0 := rest[0].end;
      assert e0 < rest[1].start <= |s| && AllSpaceIn(s, e0, rest[1].start);
      assert IsSpace(s[e0]);
      assert rest[0].start < rest[0].end;
    }
    assert forall m :: 1 <= m < |r| ==> r[m] == rest[m - 1];
  }

  /** Where `split(/\s+/)` cuts `s[i..]`. */
  function PieceSpans(s: string, i: nat): (r: seq<Span>)
    requires i <= |s|
    ensures CutsAt(s, i, r)
    decreases |s| - i
  {
    var k := SkipWord(s, i);
    if k == |s| then [Span(i, |s|)]
    else
      var j := SkipSpace(s, k);
      var rest := PieceSpans(s, j);
      ConsCut(s, i, k, j, rest);
      [Span(i, k)] + rest
  }

  /**
   * Each span of `PieceSpans` is a maximal non-whitespace run: whitespace (or the
   * split point) lies right before it, whitespace (or the text end) right after
   * it, and only the first or the last span can be empty.
   */
  lemma PiecesAreMaximalRuns(s: string, i: nat, k: nat)
    requires i <= |s| && k < |PieceSpans(s, i)|
    ensures var p := PieceSpans(s, i)[k];
      && NoSpaceIn(s, p.start, p.end)
      && (p.start == i || IsSpace(s[p.start - 1]))
      && (p.end == |s| || IsSpace(s[p.end]))
      && (0 < k < |PieceSpans(s, i)| - 1 ==> p.start < p.end)
  {
    var r := PieceSpans(s, i);
    if k > 0 {
      assert r[k - 1].end < r[k].start && AllSpaceIn(s, r[k - 1].end, r[k].start);
    }
    if k < |r| - 1 {
      assert r[k].end < r[k + 1].start && AllSpaceIn(s, r[k].end, r[k + 1].start);
    }
  }

  /** `split(/\s+/)` applied from index `i`: the slices of `s` that `PieceSpans` marks, in order. */
  function SplitFrom(s: string, i: nat): (pieces: seq<string>)
    requires i <= |s|
    ensures |pieces| == |PieceSpans(s, i)|
    ensures forall k :: 0 <= k < |pieces| ==> pieces[k] == s[PieceSpans(s, i)[k].start..PieceSpans(s, i)[k].end]
  {
    var r := PieceSpans(s, i);
    seq(|r|, k requires 0 <= k < |r| => s[r[k].start..r[k].end])
  }

  /** `s.split(/\s+/)`. */
  function SplitOnSpace(s: string): seq<string> {
    SplitFrom(s, 0)
  }

  /** The live counter's and the report's word count. */
  function WordCount(s: string): nat {
    var t := Trim(s);
    if t == [] then 0 else |SplitOnSpace(t)|
  }

  /**
   * The number of maximal runs of non-whitespace characters in `s[i..]`, given
   * whether the character before index `i` was whitespace (or absent): one for
   * each non-whitespace character that starts a run.
   */
  function RunsFrom(s: string, i: nat, afterSpace: bool): nat
    requires i <= |s|
    decreases |s| - i
  {
    if i == |s| then 0
    else (if afterSpace && !IsSpace(s[i]) then 1 else 0) + RunsFrom(s, i + 1, IsSpace(s[i]))
  }

  /** The number of maximal non-whitespace runs (words) of `s`. */
  function Runs(s: string): nat {
    RunsFrom(s, 0, true)
  }

  /** A whitespace run starts no word. */
  lemma {:induction false} RunsOverSpace(s: string, i: nat, j: nat, afterSpace: bool)
    requires i < j <= |s| && AllSpaceIn(s, i, j)
    ensures RunsFrom(s, i, afterSpace) == RunsFrom(s, j, true)
    decreases j - i
  {
    if i + 1 < j {
      RunsOverSpace(s, i + 1, j, true);
    }
  }

  /** A non-whitespace run starts one word if it follows whitespace. */
  lemma {:induction false} RunsOverWord(s: string, i: nat, j: nat, afterSpace: bool)
    requires i < j <= |s| && NoSpaceIn(s, i, j)
    ensures RunsFrom(s, i, afterSpace) == (if afterSpace then 1 else 0) + RunsFrom(s, j, false)
    decreases j - i
  {
    if i + 1 < j {
      RunsOverWord(s, i + 1, j, false);
    }
  }

  /** Only whitespace after index `i`: no more words. */
  lemma TrailingSpaceHasNoRuns(s: string, i: nat, afterSpace: bool)
    requires i <= |s| && AllSpaceIn(s, i, |s|)
    ensures RunsFrom(s, i, afterSpace) == 0
  {
    if i < |s| {
      RunsOverSpace(s, i, |s|, afterSpace);
    }
  }

  /** Cutting off a whitespace-only tail and any head keeps the words counted from inside the cut. */
  lemma {:induction false} RunsOfSlice(s: string, lo: nat, hi: nat, i: nat, afterSpace: bool)
    requires lo <= hi <= |s| && i <= hi - lo && AllSpaceIn(s, hi, |s|)
    ensures RunsFrom(s[lo..hi], i, afterSpace) == RunsFrom(s, lo + i, afterSpace)
    decreases hi - lo - i
  {
    if i == hi - lo {
      TrailingSpaceHasNoRuns(s, hi, afterSpace);
    } else {
      assert s[lo..hi][i] == s[lo + i];
      RunsOfSlice(s, lo, hi, i + 1, IsSpace(s[lo + i]));
    }
  }

  /**
   * From the start of a word in a text that ends in a non-space character,
   * `split(/\s+/)` yields one piece per word.
   */
  lemma {:induction false} SplitCountsRuns(t: string, i: nat)
    requires i < |t| && !IsSpace(t[i]) && !IsSpace(t[|t| - 1])
    ensures |PieceSpans(t, i)| == RunsFrom(t, i, true)
    decreases |t| - i
  {
    var k := SkipWord(t, i);
    RunsOverWord(t, i, k, true);
    if k < |t| {
      var j := SkipSpace(t, k);
      RunsOverSpace(t, k, j, false);
      SplitCountsRuns(t, j);
    }
  }

  /**
   * The word count (`trim() === '' ? 0 : trim().split(/\s+/).length`) is the
   * number of maximal non-whitespace runs of the text, and it is zero exactly
   * for a blank text.
   */
  lemma WordCountIsRuns(s: string)
    ensures WordCount(s) == Runs(s)
    ensures WordCount(s) == 0 <==> AllSpaceIn(s, 0, |s|)
  {
    var t := Trim(s);
    if t == [] {
      TrailingSpaceHasNoRuns(s, 0, true);
    } else {
      var a := SkipSpace(s, 0);
      var e := SkipSpaceBack(s, |s|);
      assert t == s[a..e];
      SplitCountsRuns(t, 0);
      RunsOfSlice(s, a, e, 0, true);
      if a > 0 {
        RunsOverSpace(s, 0, a, true);
      }
    }
  }

  /** `s.substring(a, b)`: both bounds clamped to `[0, |s|]`, swapped when reversed. */
  function Substring(s: string, a: int, b: int): (r: string)
    ensures 0 <= a <= b <= |s| ==> r == s[a..b]
    ensures |r| <= |s|
  {
    var lo := if a < 0 then 0 else if a > |s| then |s| else a;
    var hi := if b < 0 then 0 else if b > |s| then |s| else b;
    if lo <= hi then s[lo..hi] else s[hi..lo]
  }

  /** `s.replace(/\n/g, ' ')`. */
  function NewlinesToSpaces(s: string): (r: string)
    ensures |r| == |s|
    ensures forall i :: 0 <= i < |s| ==> r[i] == (if s[i] == '\n' then ' ' else s[i])
    ensures '\n' !in r
  {
    if s == [] then [] else [if s[0] == '\n' then ' ' else s[0]] + NewlinesToSpaces(s[1..])
  }

  /** The decimal digits of `n`, as a number is rendered inside a template string. */
  function Decimal(n: nat): (r: string)
    ensures |r| >= 1
    ensures forall i :: 0 <= i < |r| ==> '0' <= r[i] <= '9'
    ensures |r| > 1 ==> r[0] != '0'
  {
    if n < 10 then [('0' as int + n) as char] else Decimal(n / 10) + [('0' as int + n % 10) as char]
  }

  /** The number written by a string of decimal digits. */
  function DecimalValue(s: string): nat
    requires forall i :: 0 <= i < |s| ==> '0' <= s[i] <= '9'
  {
    if s == [] then 0 else 10 * DecimalValue(s[..|s| - 1]) + (s[|s| - 1] as int - '0' as int)
  }

  /** Reading the rendered number back gives the number. */
  lemma {:induction false} DecimalRoundTrip(n: nat)
    ensures DecimalValue(Decimal(n)) == n
  {
    if n >= 10 {
      var d := Decimal(n);
      assert d[..|d| - 1] == Decimal(n / 10);
      DecimalRoundTrip(n / 10);
    }
  }
}
