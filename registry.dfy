/**
 * The pattern registry: a fixed, ordered table of the invisible characters the
 * detector looks for, and the exact-equality lookup the scanner uses on it.
 */
module Registry {
  import opened Wrappers

  /** One registry entry: a single UTF-16 code unit and its display name. */
  datatype Pattern = Pattern(code: char, name: string)

  /** The registry table, in source order (21 entries). */
  const Patterns: seq<Pattern> := [
    Pattern('\U{200B}', "Zero Width Space (U+200B)"),
    Pattern('\U{200C}', "Zero Width Non-Joiner (U+200C)"),
    Pattern('\U{200D}', "Zero Width Joiner (U+200D)"),
    Pattern('\U{FEFF}', "Zero Width No-Break Space (U+FEFF)"),
    Pattern('\U{2060}', "Word Joiner (U+2060)"),
    Pattern('\U{180E}', "Mongolian Vowel Separator (U+180E)"),
    Pattern('\U{200E}', "Left-to-Right Mark (U+200E)"),
    Pattern('\U{200F}', "Right-to-Left Mark (U+200F)"),
    Pattern('\U{202A}', "Left-to-Right Embedding (U+202A)"),
    Pattern('\U{202B}', "Right-to-Left Embedding (U+202B)"),
    Pattern('\U{202C}', "Pop Directional Formatting (U+202C)"),
    Pattern('\U{202D}', "Left-to-Right Override (U+202D)"),
    Pattern('\U{202E}', "Right-to-Left Override (U+202E)"),
    Pattern('\U{2061}', "Function Application (U+2061)"),
    Pattern('\U{2062}', "Invisible Times (U+2062)"),
    Pattern('\U{2063}', "Invisible Separator (U+2063)"),
    Pattern('\U{2064}', "Invisible Plus (U+2064)"),
    Pattern('\U{034F}', "Combining Grapheme Joiner (U+034F)"),
    Pattern('\U{061C}', "Arabic Letter Mark (U+061C)"),
    Pattern('\U{00AD}', "Soft Hyphen (U+00AD)"),
    Pattern('\U{2009}', "Thin Space (U+2009)")
  ]

  /** No two entries of `ps` share a code. */
  ghost predicate DistinctCodes(ps: seq<Pattern>) {
    forall i, j :: 0 <= i < j < |ps| ==> ps[i].code != ps[j].code
  }

  /** `c` is the code of some entry of `ps`. */
  ghost predicate HasCode(ps: seq<Pattern>, c: char) {
    exists i :: 0 <= i < |ps| && ps[i].code == c
  }

  /** The index of the first entry of `ps` whose code equals `c`, as `Array.prototype.find` scans. */
  function FindCode(ps: seq<Pattern>, c: char): (r: Option<nat>)
    ensures r.Some? ==> r.value < |ps| && ps[r.value].code == c
    ensures r.Some? ==> forall j :: 0 <= j < r.value ==> ps[j].code != c
    ensures r.None? ==> forall j :: 0 <= j < |ps| ==> ps[j].code != c
  {
    if |ps| == 0 then None
    else if ps[0].code == c then Some(0)
    else match FindCode(ps[1..], c)
      case None => None
      case Some(k) => Some(k + 1)
  }

  /** The entry of `ps` that `patterns.find(p => p.code === c)` returns, if any. */
  function LookupIn(ps: seq<Pattern>, c: char): (r: Option<Pattern>)
    ensures r.Some? <==> HasCode(ps, c)
    ensures r.Some? ==> r.value in ps && r.value.code == c
  {
    match FindCode(ps, c)
    case None => None
    case Some(k) => Some(ps[k])
  }

  /**
   * When the codes of `ps` are distinct, the lookup is determined by the table: a
   * character equal to the code of entry `i` finds exactly entry `i`, whatever
   * order the table is searched in.
   */
  lemma LookupFindsTheMatchingEntry(ps: seq<Pattern>, i: nat, c: char)
    requires DistinctCodes(ps)
    requires i < |ps| && ps[i].code == c
    ensures LookupIn(ps, c) == Some(ps[i])
  {
    var k := FindCode(ps, c).value;
    assert k <= i;
    if k < i {
      assert ps[k].code == ps[i].code;
    }
  }

  /**
   * The position of `c` in the table, written out as a chain of comparisons
   * (a code-keyed index independent of the table's own order); -1 when `c` is
   * not a registry code.
   */
  function CodeRank(c: char): int {
    if c == '\U{200B}' then 0
    else if c == '\U{200C}' then 1
    else if c == '\U{200D}' then 2
    else if c == '\U{FEFF}' then 3
    else if c == '\U{2060}' then 4
    else if c == '\U{180E}' then 5
    else if c == '\U{200E}' then 6
    else if c == '\U{200F}' then 7
    else if c == '\U{202A}' then 8
    else if c == '\U{202B}' then 9
    else if c == '\U{202C}' then 10
    else if c == '\U{202D}' then 11
    else if c == '\U{202E}' then 12
    else if c == '\U{2061}' then 13
    else if c == '\U{2062}' then 14
    else if c == '\U{2063}' then 15
    else if c == '\U{2064}' then 16
    else if c == '\U{034F}' then 17
    else if c == '\U{061C}' then 18
    else if c == '\U{00AD}' then 19
    else if c == '\U{2009}' then 20
    else -1
  }

  /** The code-keyed index inverts the table: entry `i`'s code ranks `i`. */
  lemma CodeRankInvertsTable()
    ensures forall i :: 0 <= i < |Patterns| ==> CodeRank(Patterns[i].code) == i
  {
  }

  /** The table has 21 entries and its codes are pairwise distinct. */
  lemma RegistryCodesDistinct()
    ensures |Patterns| == 21
    ensures DistinctCodes(Patterns)
  {
    CodeRankInvertsTable();
  }

  /** In the registry itself, each character matches at most one entry, and lookup finds it. */
  lemma RegistryLookupIsExact(i: nat, c: char)
    requires i < |Patterns| && Patterns[i].code == c
    ensures LookupIn(Patterns, c) == Some(Patterns[i])
  {
    RegistryCodesDistinct();
    LookupFindsTheMatchingEntry(Patterns, i, c);
  }
}
