/**
 * The plain-text report of `generateReport`: a fixed header with the date, the
 * time and the text statistics, then either the "none found" line or the
 * per-name counts and one context excerpt per finding, then a fixed footer.
 * The findings are passed in (they are the scan's result); the date and time
 * are opaque strings supplied by the caller.
 */
module Report {
  import opened Wrappers
  import opened Text
  import opened Scanner

  const Title: string := "INFORME DE DETECCIÓN DE CARACTERES INVISIBLES"
  const Rule: string := "============================================="
  const NoneLine: string := "No se encontraron caracteres invisibles en el texto.\n"
  const ContextHeading: string := "\nExtracciones de contexto:\n"
  const Footer: string := "Generado por Detector de Caracteres Invisibles\n"
  const Url: string := "https://github.com/686f6c61/artificial-intelligence-text-detector-unicode"
  const Marker: string := "[INVISIBLE CHAR]"

  /** How far an excerpt reaches on either side of a finding. */
  const ContextRadius: nat := 20

  // ---------------------------------------------------------------------------
  // The per-name dictionary

  /**
   * The `characterCounts` object: its values by key, and its keys in the order
   * `Object.keys` lists them (insertion order, since no display name is an
   * array index).
   */
  datatype Dictionary = Dictionary(keys: seq<string>, counts: map<string, nat>)

  /** `characterCounts[name]++` for a present key, `characterCounts[name] = 1` for a new one. */
  function Tick(d: Dictionary, name: string): Dictionary {
    if name in d.counts then d.(counts := d.counts[name := d.counts[name] + 1])
    else Dictionary(d.keys + [name], d.counts[name := 1])
  }

  /** The dictionary after the `forEach` over the findings; every listed key has a value. */
  function CharacterCounts(fs: seq<Finding>): (d: Dictionary)
    ensures forall k :: 0 <= k < |d.keys| ==> d.keys[k] in d.counts
  {
    if fs == [] then Dictionary([], map[]) else Tick(CharacterCounts(fs[..|fs| - 1]), fs[|fs| - 1].name)
  }

  /** The dictionary lists the groups' names in group order, holds no other key, and maps each name to its group's count. */
  ghost predicate Mirrors(d: Dictionary, gs: seq<Group>) {
    && |d.keys| == |gs|
    && (forall k :: 0 <= k < |gs| ==> d.keys[k] == gs[k].name)
    && (forall name :: name in d.counts <==> name in d.keys)
    && (forall k :: 0 <= k < |gs| ==> d.keys[k] in d.counts && d.counts[d.keys[k]] == gs[k].count)
  }

  /** Bumping a present key mirrors bumping that name's group. */
  lemma TickPresentKey(d: Dictionary, gs: seq<Group>, f: Finding, j: nat)
    requires Mirrors(d, gs) && NamesDistinct(gs)
    requires j < |gs| && gs[j].name == f.name
    ensures Mirrors(Tick(d, f.name), gs[j := gs[j].(count := gs[j].count + 1, positions := gs[j].positions + [f.index])])
  {
    assert f.name == d.keys[j];
  }

  /** Adding a new key mirrors opening a new group. */
  lemma TickNewKey(d: Dictionary, gs: seq<Group>, f: Finding)
    requires Mirrors(d, gs)
    requires forall k :: 0 <= k < |gs| ==> gs[k].name != f.name
    ensures Mirrors(Tick(d, f.name), gs + [Group(f.name, 1, [f.index])])
  {
    assert f.name !in d.keys;
  }

  lemma TickMirrorsStep(d: Dictionary, gs: seq<Group>, f: Finding)
    requires Mirrors(d, gs) && NamesDistinct(gs)
    ensures Mirrors(Tick(d, f.name), AddToGroups(gs, f))
  {
    match GroupIndex(gs, f.name)
    case Some(j) => TickPresentKey(d, gs, f, j);
    case None => TickNewKey(d, gs, f);
  }

  /**
   * The report's dictionary agrees with the scan's grouping: the same names in
   * the same order, no other key, and the same counts.
   */
  lemma {:induction false} CharacterCountsMirrorGroups(fs: seq<Finding>)
    ensures Mirrors(CharacterCounts(fs), GroupsOf(fs))
    ensures NamesDistinct(GroupsOf(fs))
    decreases |fs|
  {
    if fs != [] {
      var prev := fs[..|fs| - 1];
      CharacterCountsMirrorGroups(prev);
      TickMirrorsStep(CharacterCounts(prev), GroupsOf(prev), fs[|fs| - 1]);
      StepKeepsNamesDistinct(GroupsOf(prev), fs[|fs| - 1]);
    }
  }

  /**
   * For the scan's findings the dictionary lists every name once, each count is
   * the number of findings with that name and at least 1, and the counts add
   * up to the number of findings.
   */
  lemma ScanCharacterCounts(ps: seq<Registry.Pattern>, text: string)
    ensures var fs := Findings(ps, text);
      var d := CharacterCounts(fs);
      && (forall a, b :: 0 <= a < b < |d.keys| ==> d.keys[a] != d.keys[b])
      && (forall k :: 0 <= k < |d.keys| ==> d.counts[d.keys[k]] == |PositionsOf(fs, d.keys[k])| >= 1)
      && SumCounts(GroupsOf(fs)) == |fs|
  {
    var fs := Findings(ps, text);
    GroupsOfScan(ps, text);
    CharacterCountsMirrorGroups(fs);
  }

  // ---------------------------------------------------------------------------
  // The report text

  /** `Math.max(0, position - 20)`. */
  function ExcerptStart(p: nat): nat {
    if p >= ContextRadius then p - ContextRadius else 0
  }

  /** `Math.min(text.length, position + 20)`. */
  function ExcerptEnd(len: nat, p: nat): nat {
    if p + ContextRadius <= len then p + ContextRadius else len
  }

  /** The context before position `p`, newlines shown as spaces. */
  function Before(text: string, p: nat): string {
    NewlinesToSpaces(Substring(text, ExcerptStart(p), p))
  }

  /** The context after position `p` (the character at `p` itself excluded), newlines shown as spaces. */
  function After(text: string, p: nat): string {
    NewlinesToSpaces(Substring(text, p + 1, ExcerptEnd(|text|, p)))
  }

  /** Inside the text, the excerpt before `p` is the (up to) 20 characters preceding it, line feeds shown as spaces. */
  lemma BeforeIsPrecedingContext(text: string, p: nat)
    requires p <= |text|
    ensures |Before(text, p)| == (if p < ContextRadius then p else ContextRadius)
    ensures forall i :: 0 <= i < |Before(text, p)| ==>
      var c := text[ExcerptStart(p) + i]; Before(text, p)[i] == (if c == '\n' then ' ' else c)
    ensures '\n' !in Before(text, p)
  {
  }

  /**
   * Inside the text, the excerpt after `p` is the (up to) 19 characters
   * following it, the character at `p` itself excluded, line feeds shown as
   * spaces.
   */
  lemma AfterIsFollowingContext(text: string, p: nat)
    requires p < |text|
    ensures |After(text, p)| == (if |text| - p - 1 < ContextRadius - 1 then |text| - p - 1 else ContextRadius - 1)
    ensures forall i :: 0 <= i < |After(text, p)| ==>
      var c := text[p + 1 + i]; After(text, p)[i] == (if c == '\n' then ' ' else c)
    ensures '\n' !in After(text, p)
  {
    var e := ExcerptEnd(|text|, p);
    assert Substring(text, p + 1, e) == text[p + 1..e];
  }

  /** The title and the rule the report always opens with. */
  const Opening: string := Title + "\n" + Rule + "\n\n"

  /** The date, the time, and the character and word totals. */
  function Details(text: string, date: string, time: string): string {
    "Fecha: " + date + "\n"
    + "Hora: " + time + "\n\n"
    + "Total de caracteres: " + Decimal(|text|) + "\n"
    + "Total de palabras: " + Decimal(WordCount(text)) + "\n\n"
  }

  /** The `- name: count veces` lines for the keys `keys`, in order. */
  function CountLines(keys: seq<string>, counts: map<string, nat>): string
    requires forall k :: 0 <= k < |keys| ==> keys[k] in counts
  {
    if keys == [] then []
    else CountLines(keys[..|keys| - 1], counts) + "- " + keys[|keys| - 1] + ": " + Decimal(counts[keys[|keys| - 1]]) + " veces\n"
  }

  /** The excerpt block of the finding numbered `number` (counting from 1). */
  function ExcerptBlock(text: string, number: nat, f: Finding): string {
    "\n[" + Decimal(number) + "] " + f.name + " encontrado en posición " + Decimal(f.index) + ":\n"
    + "\"..." + Before(text, f.index) + Marker + After(text, f.index) + "...\"\n"
  }

  /** The excerpt blocks of `fs`, numbered 1, 2, ... in finding order. */
  function ExcerptBlocks(text: string, fs: seq<Finding>): string {
    if fs == [] then []
    else ExcerptBlocks(text, fs[..|fs| - 1]) + ExcerptBlock(text, |fs|, fs[|fs| - 1])
  }

  /** The announcement that opens the middle of the report when something was found. */
  function Announcement(n: nat): string {
    "Se encontraron " + Decimal(n) + " caracteres invisibles:\n\n"
  }

  /** The middle of the report: the "none found" line, or the counts and the excerpts. */
  function Body(charsFound: bool, text: string, fs: seq<Finding>): string {
    if !charsFound || |fs| == 0 then NoneLine else FoundBody(text, fs)
  }

  /** The middle of the report when something was found. */
  function FoundBody(text: string, fs: seq<Finding>): string {
    Announcement(|fs|) + CountLines(CharacterCounts(fs).keys, CharacterCounts(fs).counts) + ContextHeading + ExcerptBlocks(text, fs)
  }

  /** The last lines: rule, footer and project address. */
  const Closing: string := "\n" + Rule + "\n" + Footer + Url

  /** Where the parts of a concatenation sit inside it. */
  lemma PartsOfConcat(a: string, b: string, c: string)
    ensures (a + b + c)[..|a|] == a
    ensures (a + b + c)[|a|..|a| + |b|] == b
    ensures (a + b + c)[|a| + |b|..] == c
  {
  }

  /**
   * `generateReport(charsFound)` over the text, its findings and the rendered
   * date and time. It always opens with the title and the rule and always
   * closes with the rule, the footer line and the project address; in between
   * come the details and the middle part.
   */
  function GenerateReport(charsFound: bool, text: string, fs: seq<Finding>, date: string, time: string): (r: string)
    ensures |r| >= |Opening| + |Closing|
    ensures r[..|Opening|] == Opening
    ensures r[|r| - |Closing|..] == Closing
    ensures r[|Opening|..|r| - |Closing|] == Details(text, date, time) + Body(charsFound, text, fs)
  {
    var m := Details(text, date, time) + Body(charsFound, text, fs);
    PartsOfConcat(Opening, m, Closing);
    Opening + m + Closing
  }

  /** Where the four parts of a concatenation sit inside it. */
  lemma PartsOfConcat4(a: string, b: string, c: string, d: string)
    ensures (a + b + c + d)[..|a|] == a
    ensures (a + b + c + d)[|a|..|a| + |b|] == b
    ensures (a + b + c + d)[|a| + |b|..|a| + |b| + |c|] == c
    ensures (a + b + c + d)[|a| + |b| + |c|..] == d
  {
    assert a + b + c + d == a + (b + c + d);
    assert a + b + c + d == (a + b) + c + d;
  }

  /** The middle of the report is exactly the "none found" line when and only when the caller reports no hit or the finding list is empty. */
  lemma NoneLineExactlyWhenNothingFound(charsFound: bool, text: string, fs: seq<Finding>)
    ensures Body(charsFound, text, fs) == NoneLine <==> !charsFound || |fs| == 0
  {
    if charsFound && |fs| > 0 {
      var n := Announcement(|fs|);
      assert n[0] == 'S';
      assert FoundBody(text, fs)[0] == n[0];
    }
  }

  /**
   * When something was found, the middle of the report opens with the number
   * of findings, then the count lines, then the "Extracciones de contexto"
   * heading, then the excerpts.
   */
  lemma FoundBodyLayout(text: string, fs: seq<Finding>)
    ensures var b := FoundBody(text, fs);
      var n := Announcement(|fs|);
      var cl := CountLines(CharacterCounts(fs).keys, CharacterCounts(fs).counts);
      && b[..|n|] == n
      && b[|n|..|n| + |cl|] == cl
      && b[|n| + |cl|..|n| + |cl| + |ContextHeading|] == ContextHeading
      && b[|n| + |cl| + |ContextHeading|..] == ExcerptBlocks(text, fs)
  {
    var n, cl, eb := Announcement(|fs|), CountLines(CharacterCounts(fs).keys, CharacterCounts(fs).counts), ExcerptBlocks(text, fs);
    FoundBodyParts(n, cl, ContextHeading, eb, FoundBody(text, fs));
  }

  lemma FoundBodyParts(n: string, cl: string, h: string, eb: string, b: string)
    requires b == n + cl + h + eb
    ensures b[..|n|] == n
    ensures b[|n|..|n| + |cl|] == cl
    ensures b[|n| + |cl|..|n| + |cl| + |h|] == h
    ensures b[|n| + |cl| + |h|..] == eb
  {
    PartsOfConcat4(n, cl, h, eb);
  }
}
