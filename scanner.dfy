/**
 * The scanner: one left-to-right pass over the text that records a finding for
 * every registry character and groups the findings by display name, in the
 * order each name is first met.
 */
module Scanner {
  import opened Wrappers
  import opened Registry

  /** One occurrence of a registry character: its index in the text, name and code. */
  datatype Finding = Finding(index: nat, name: string, code: char)

  /** All occurrences of one character type: how many, and where, in text order. */
  datatype Group = Group(name: string, count: nat, positions: seq<nat>)

  // ---------------------------------------------------------------------------
  // Specification of the findings

  /** The finding recorded for index `i`, if `text[i]` is a code of the registry `ps`. */
  function FindingAt(ps: seq<Pattern>, text: string, i: nat): (r: Option<Finding>)
    requires i < |text|
    ensures r.Some? <==> HasCode(ps, text[i])
    ensures r.Some? ==> r.value.index == i && Pattern(r.value.code, r.value.name) == LookupIn(ps, text[i]).value
  {
    match LookupIn(ps, text[i])
    case None => None
    case Some(p) => Some(Finding(i, p.name, p.code))
  }

  /** The findings of the first `n` characters of `text`, in scan order. */
  function FindingsUpTo(ps: seq<Pattern>, text: string, n: nat): seq<Finding>
    requires n <= |text|
  {
    if n == 0 then []
    else FindingsUpTo(ps, text, n - 1) + (match FindingAt(ps, text, n - 1) case None => [] case Some(f) => [f])
  }

  /** The findings of the whole text against the registry `ps`. */
  function Findings(ps: seq<Pattern>, text: string): seq<Finding> {
    FindingsUpTo(ps, text, |text|)
  }

  /** The finding names the registry entry that `text` holds at its index. */
  ghost predicate Sound(ps: seq<Pattern>, text: string, f: Finding) {
    f.index < |text| && LookupIn(ps, text[f.index]) == Some(Pattern(f.code, f.name))
  }

  /** Some finding of `fs` is at text index `i`. */
  ghost predicate Reported(fs: seq<Finding>, i: nat) {
    exists k :: 0 <= k < |fs| && fs[k].index == i
  }

  /** The text indices of `fs` strictly increase. */
  ghost predicate Increasing(fs: seq<Finding>) {
    forall a, b :: 0 <= a < b < |fs| ==> fs[a].index < fs[b].index
  }

  /** The last step of the findings: the earlier ones, then the one at `n - 1`, if any. */
  lemma FindingsStep(ps: seq<Pattern>, text: string, n: nat)
    requires 0 < n <= |text|
    ensures HasCode(ps, text[n - 1]) ==>
      FindingsUpTo(ps, text, n) == FindingsUpTo(ps, text, n - 1) + [FindingAt(ps, text, n - 1).value]
    ensures !HasCode(ps, text[n - 1]) ==> FindingsUpTo(ps, text, n) == FindingsUpTo(ps, text, n - 1)
  {
  }

  /** The step of the scan loop at index `i`, stated on the lookup the loop performs. */
  lemma ScanStep(ps: seq<Pattern>, text: string, i: nat)
    requires i < |text|
    ensures LookupIn(ps, text[i]).None? ==> FindingsUpTo(ps, text, i + 1) == FindingsUpTo(ps, text, i)
    ensures LookupIn(ps, text[i]).Some? ==>
      var p := LookupIn(ps, text[i]).value;
      FindingsUpTo(ps, text, i + 1) == FindingsUpTo(ps, text, i) + [Finding(i, p.name, p.code)]
  {
    FindingsStep(ps, text, i + 1);
  }

  lemma FindingsLengthStep(ps: seq<Pattern>, text: string, n: nat)
    requires 0 < n <= |text|
    ensures |FindingsUpTo(ps, text, n)| == |FindingsUpTo(ps, text, n - 1)| + if HasCode(ps, text[n - 1]) then 1 else 0
  {
    FindingsStep(ps, text, n);
  }

  lemma {:induction false} FindingsUpToSound(ps: seq<Pattern>, text: string, n: nat)
    requires n <= |text|
    ensures forall k :: 0 <= k < |FindingsUpTo(ps, text, n)| ==>
      FindingsUpTo(ps, text, n)[k].index < n && Sound(ps, text, FindingsUpTo(ps, text, n)[k])
  {
    if n > 0 {
      FindingsUpToSound(ps, text, n - 1);
      FindingsStep(ps, text, n);
    }
  }

  lemma {:induction false} FindingsUpToIncreasing(ps: seq<Pattern>, text: string, n: nat)
    requires n <= |text|
    ensures Increasing(FindingsUpTo(ps, text, n))
  {
    if n > 0 {
      FindingsUpToIncreasing(ps, text, n - 1);
      FindingsUpToSound(ps, text, n - 1);
      FindingsStep(ps, text, n);
    }
  }

  /** Appending a finding reports its index and keeps the others reported. */
  lemma ReportedSnoc(prev: seq<Finding>, f: Finding, i: nat)
    ensures Reported(prev + [f], i) <==> Reported(prev, i) || f.index == i
  {
    var fs := prev + [f];
    if Reported(fs, i) && f.index != i {
      var k :| 0 <= k < |fs| && fs[k].index == i;
      assert k < |prev| && prev[k] == fs[k];
    }
    if Reported(prev, i) {
      var k :| 0 <= k < |prev| && prev[k].index == i;
      assert fs[k] == prev[k];
    }
    assert fs[|prev|] == f;
  }

  lemma {:induction false} FindingsUpToComplete(ps: seq<Pattern>, text: string, n: nat)
    requires n <= |text|
    ensures forall i :: 0 <= i < n ==> (HasCode(ps, text[i]) <==> Reported(FindingsUpTo(ps, text, n), i))
  {
    if n > 0 {
      FindingsUpToComplete(ps, text, n - 1);
      FindingsUpToSound(ps, text, n - 1);
      FindingsStep(ps, text, n);
      var prev := FindingsUpTo(ps, text, n - 1);
      assert !Reported(prev, n - 1);
      if HasCode(ps, text[n - 1]) {
        var f := FindingAt(ps, text, n - 1).value;
        forall i | 0 <= i < n ensures Reported(prev + [f], i) <==> Reported(prev, i) || i == n - 1 {
          ReportedSnoc(prev, f, i);
        }
      }
    }
  }

  /**
   * Soundness and completeness of the scan: every finding lies inside the text
   * and names the registry entry found there; an index is reported exactly when
   * its character is a registry code; indices strictly increase.
   */
  lemma FindingsSoundAndComplete(ps: seq<Pattern>, text: string)
    ensures forall k :: 0 <= k < |Findings(ps, text)| ==> Sound(ps, text, Findings(ps, text)[k])
    ensures forall i :: 0 <= i < |text| ==> (HasCode(ps, text[i]) <==> Reported(Findings(ps, text), i))
    ensures Increasing(Findings(ps, text))
  {
    FindingsUpToSound(ps, text, |text|);
    FindingsUpToComplete(ps, text, |text|);
    FindingsUpToIncreasing(ps, text, |text|);
  }

  /** A text is clean (has no findings) exactly when it holds no registry character. */
  lemma CleanTextHasNoFindings(ps: seq<Pattern>, text: string)
    ensures Findings(ps, text) == [] <==> forall i :: 0 <= i < |text| ==> !HasCode(ps, text[i])
  {
    FindingsSoundAndComplete(ps, text);
    var fs := Findings(ps, text);
    if fs != [] {
      assert Sound(ps, text, fs[0]);
      assert HasCode(ps, text[fs[0].index]);
    }
  }

  // ---------------------------------------------------------------------------
  // The number of findings, counted by literal occurrence

  /** How many of the first `n` characters of `text` equal `c`. */
  function Occurrences(text: string, n: nat, c: char): nat
    requires n <= |text|
  {
    if n == 0 then 0 else Occurrences(text, n - 1, c) + (if text[n - 1] == c then 1 else 0)
  }

  /** The occurrences in the first `n` characters of every code of `ps`, added up. */
  function TotalOccurrences(text: string, n: nat, ps: seq<Pattern>): nat
    requires n <= |text|
  {
    if ps == [] then 0 else Occurrences(text, n, ps[0].code) + TotalOccurrences(text, n, ps[1..])
  }

  /** How many entries of `ps` have code `c`. */
  function CodeMatches(ps: seq<Pattern>, c: char): nat {
    if ps == [] then 0 else (if ps[0].code == c then 1 else 0) + CodeMatches(ps[1..], c)
  }

  lemma {:induction false} CodeMatchesDistinct(ps: seq<Pattern>, c: char)
    requires DistinctCodes(ps)
    ensures CodeMatches(ps, c) == if HasCode(ps, c) then 1 else 0
  {
    if ps != [] {
      var tl := ps[1..];
      assert DistinctCodes(tl) by {
        forall i, j | 0 <= i < j < |tl| ensures tl[i].code != tl[j].code {
          assert tl[i] == ps[i + 1] && tl[j] == ps[j + 1];
        }
      }
      CodeMatchesDistinct(tl, c);
      if ps[0].code == c {
        assert !HasCode(tl, c) by {
          forall j | 0 <= j < |tl| ensures tl[j].code != c {
            assert tl[j] == ps[j + 1];
          }
        }
      } else if HasCode(ps, c) {
        var j :| 0 <= j < |ps| && ps[j].code == c;
        assert tl[j - 1] == ps[j];
      }
    }
  }

  lemma {:induction false} TotalOccurrencesStep(text: string, n: nat, ps: seq<Pattern>)
    requires n < |text|
    ensures TotalOccurrences(text, n + 1, ps) == TotalOccurrences(text, n, ps) + CodeMatches(ps, text[n])
  {
    if ps != [] {
      TotalOccurrencesStep(text, n, ps[1..]);
    }
  }

  lemma {:induction false} ZeroOccurrences(text: string, ps: seq<Pattern>)
    ensures TotalOccurrences(text, 0, ps) == 0
  {
    if ps != [] {
      ZeroOccurrences(text, ps[1..]);
    }
  }

  /** How many of the first `n` characters of `text` are codes of `ps`. */
  ghost function Hits(ps: seq<Pattern>, text: string, n: nat): nat
    requires n <= |text|
  {
    if n == 0 then 0 else Hits(ps, text, n - 1) + (if HasCode(ps, text[n - 1]) then 1 else 0)
  }

  lemma {:induction false} FindingsCountHits(ps: seq<Pattern>, text: string, n: nat)
    requires n <= |text|
    ensures |FindingsUpTo(ps, text, n)| == Hits(ps, text, n)
  {
    if n > 0 {
      FindingsCountHits(ps, text, n - 1);
      FindingsLengthStep(ps, text, n);
    }
  }

  lemma {:induction false} HitsAreOccurrences(ps: seq<Pattern>, text: string, n: nat)
    requires DistinctCodes(ps) && n <= |text|
    ensures Hits(ps, text, n) == TotalOccurrences(text, n, ps)
  {
    if n == 0 {
      ZeroOccurrences(text, ps);
    } else {
      HitsAreOccurrences(ps, text, n - 1);
      TotalOccurrencesStep(text, n - 1, ps);
      CodeMatchesDistinct(ps, text[n - 1]);
    }
  }

  /**
   * The number of findings is the sum, over the registry codes, of how often
   * each code occurs in the text: no character is counted twice, because the
   * codes are distinct.
   */
  lemma FindingCountIsOccurrences(text: string)
    ensures |Findings(Patterns, text)| == TotalOccurrences(text, |text|, Patterns)
  {
    RegistryCodesDistinct();
    FindingsCountHits(Patterns, text, |text|);
    HitsAreOccurrences(Patterns, text, |text|);
  }

  // ---------------------------------------------------------------------------
  // Specification of the grouping

  /** The index of the group named `name` (`found.find(f => f.name === name)`). */
  function GroupIndex(gs: seq<Group>, name: string): (r: Option<nat>)
    ensures r.Some? ==> r.value < |gs| && gs[r.value].name == name
    ensures r.None? ==> forall k :: 0 <= k < |gs| ==> gs[k].name != name
  {
    if gs == [] then None
    else match GroupIndex(gs[..|gs| - 1], name)
      case Some(k) => Some(k)
      case None => if gs[|gs| - 1].name == name then Some(|gs| - 1) else None
  }

  /** One grouping step: bump the finding's group, or open a new one at the end. */
  function AddToGroups(gs: seq<Group>, f: Finding): seq<Group> {
    match GroupIndex(gs, f.name)
    case Some(k) => gs[k := gs[k].(count := gs[k].count + 1, positions := gs[k].positions + [f.index])]
    case None => gs + [Group(f.name, 1, [f.index])]
  }

  /** The groups built from `fs` in order. */
  function GroupsOf(fs: seq<Finding>): seq<Group> {
    if fs == [] then [] else AddToGroups(GroupsOf(fs[..|fs| - 1]), fs[|fs| - 1])
  }

  lemma GroupsOfSnoc(fs: seq<Finding>, f: Finding)
    ensures GroupsOf(fs + [f]) == AddToGroups(GroupsOf(fs), f)
  {
    assert (fs + [f])[..|fs|] == fs;
  }

  /** The text indices of the findings of `fs` named `name`, in order. */
  function PositionsOf(fs: seq<Finding>, name: string): seq<nat> {
    if fs == [] then []
    else PositionsOf(fs[..|fs| - 1], name) + (if fs[|fs| - 1].name == name then [fs[|fs| - 1].index] else [])
  }

  /** The sum of the group counts. */
  function SumCounts(gs: seq<Group>): nat {
    if gs == [] then 0 else SumCounts(gs[..|gs| - 1]) + gs[|gs| - 1].count
  }

  lemma {:induction false} SumCountsBump(gs: seq<Group>, k: nat, g: Group)
    requires k < |gs| && g.count == gs[k].count + 1
    ensures SumCounts(gs[k := g]) == SumCounts(gs) + 1
    decreases |gs|
  {
    var last := |gs| - 1;
    if k < last {
      assert gs[k := g][..last] == gs[..last][k := g];
      SumCountsBump(gs[..last], k, g);
    } else {
      assert gs[k := g][..last] == gs[..last];
    }
  }

  /** Each group's count is the number of its positions, and no group is empty. */
  ghost predicate CountsMatch(gs: seq<Group>) {
    forall k :: 0 <= k < |gs| ==> gs[k].count == |gs[k].positions| >= 1
  }

  /** Each group's positions are exactly the indices of the findings with its name. */
  ghost predicate PositionsMatch(fs: seq<Finding>, gs: seq<Group>) {
    forall k :: 0 <= k < |gs| ==> gs[k].positions == PositionsOf(fs, gs[k].name)
  }

  /** No two groups share a name. */
  ghost predicate NamesDistinct(gs: seq<Group>) {
    forall a, b :: 0 <= a < b < |gs| ==> gs[a].name != gs[b].name
  }

  /** Every name that has a finding has a group. */
  ghost predicate Covers(fs: seq<Finding>, gs: seq<Group>) {
    forall name :: PositionsOf(fs, name) != [] ==> GroupIndex(gs, name).Some?
  }

  /** Groups are in the order of their names' first occurrences in the text. */
  ghost predicate FirstOccurrenceOrder(gs: seq<Group>) {
    forall a, b :: 0 <= a < b < |gs| && gs[a].positions != [] && gs[b].positions != [] ==>
      gs[a].positions[0] < gs[b].positions[0]
  }

  /** Every recorded position is below `bound`. */
  ghost predicate PositionsBelow(gs: seq<Group>, bound: nat) {
    forall k, p :: 0 <= k < |gs| && 0 <= p < |gs[k].positions| ==> gs[k].positions[p] < bound
  }

  /** One past the last finding's index (0 when there are none). */
  function Bound(fs: seq<Finding>): nat {
    if fs == [] then 0 else fs[|fs| - 1].index + 1
  }

  /** The grouping invariant (see `GroupsOfScan`). */
  ghost predicate GroupsAgree(fs: seq<Finding>, gs: seq<Group>) {
    && CountsMatch(gs)
    && PositionsMatch(fs, gs)
    && NamesDistinct(gs)
    && Covers(fs, gs)
    && FirstOccurrenceOrder(gs)
    && PositionsBelow(gs, Bound(fs))
    && SumCounts(gs) == |fs|
  }

  lemma PositionsOfSnoc(fs: seq<Finding>, f: Finding)
    ensures forall name ::
      PositionsOf(fs + [f], name) == PositionsOf(fs, name) + (if f.name == name then [f.index] else [])
  {
    assert (fs + [f])[..|fs|] == fs;
  }

  lemma GroupIndexUpdate(gs: seq<Group>, k: nat, g: Group)
    requires k < |gs| && g.name == gs[k].name
    ensures forall name :: GroupIndex(gs, name).Some? ==> GroupIndex(gs[k := g], name).Some?
  {
    forall name | GroupIndex(gs, name).Some? ensures GroupIndex(gs[k := g], name).Some? {
      var j := GroupIndex(gs, name).value;
      assert gs[k := g][j].name == name;
    }
  }

  lemma GroupIndexAppend(gs: seq<Group>, g: Group)
    ensures GroupIndex(gs + [g], g.name).Some?
    ensures forall name :: GroupIndex(gs, name).Some? ==> GroupIndex(gs + [g], name).Some?
  {
    assert (gs + [g])[|gs|].name == g.name;
    forall name | GroupIndex(gs, name).Some? ensures GroupIndex(gs + [g], name).Some? {
      var j := GroupIndex(gs, name).value;
      assert (gs + [g])[j].name == name;
    }
  }

  lemma StepKeepsCounts(gs: seq<Group>, f: Finding)
    requires CountsMatch(gs)
    ensures CountsMatch(AddToGroups(gs, f))
  {
  }

  lemma StepKeepsPositions(fs: seq<Finding>, gs: seq<Group>, f: Finding)
    requires PositionsMatch(fs, gs) && NamesDistinct(gs) && Covers(fs, gs)
    ensures PositionsMatch(fs + [f], AddToGroups(gs, f))
  {
    PositionsOfSnoc(fs, f);
    if GroupIndex(gs, f.name).None? {
      assert PositionsOf(fs, f.name) == [];
    }
  }

  lemma StepKeepsNamesDistinct(gs: seq<Group>, f: Finding)
    requires NamesDistinct(gs)
    ensures NamesDistinct(AddToGroups(gs, f))
  {
  }

  lemma StepKeepsCovers(fs: seq<Finding>, gs: seq<Group>, f: Finding)
    requires Covers(fs, gs)
    ensures Covers(fs + [f], AddToGroups(gs, f))
  {
    PositionsOfSnoc(fs, f);
    match GroupIndex(gs, f.name)
    case Some(k) =>
      GroupIndexUpdate(gs, k, gs[k].(count := gs[k].count + 1, positions := gs[k].positions + [f.index]));
    case None =>
      GroupIndexAppend(gs, Group(f.name, 1, [f.index]));
  }

  lemma StepKeepsOrder(gs: seq<Group>, f: Finding, bound: nat)
    requires CountsMatch(gs) && FirstOccurrenceOrder(gs) && PositionsBelow(gs, bound) && bound <= f.index
    ensures FirstOccurrenceOrder(AddToGroups(gs, f)) && PositionsBelow(AddToGroups(gs, f), f.index + 1)
  {
    match GroupIndex(gs, f.name)
    case Some(k) =>
      assert (gs[k].positions + [f.index])[0] == gs[k].positions[0];
    case None =>
      var gs' := gs + [Group(f.name, 1, [f.index])];
      assert forall k :: 0 <= k < |gs| ==> gs'[k] == gs[k];
  }

  lemma StepKeepsSum(gs: seq<Group>, f: Finding)
    ensures SumCounts(AddToGroups(gs, f)) == SumCounts(gs) + 1
  {
    match GroupIndex(gs, f.name)
    case Some(k) =>
      SumCountsBump(gs, k, gs[k].(count := gs[k].count + 1, positions := gs[k].positions + [f.index]));
    case None =>
      assert (gs + [Group(f.name, 1, [f.index])])[..|gs|] == gs;
  }

  lemma {:induction false} GroupsOfFacts(fs: seq<Finding>)
    requires Increasing(fs)
    ensures GroupsAgree(fs, GroupsOf(fs))
  {
    if fs != [] {
      var prev, f := fs[..|fs| - 1], fs[|fs| - 1];
      assert fs == prev + [f];
      assert Increasing(prev);
      GroupsOfFacts(prev);
      var gs := GroupsOf(prev);
      assert Bound(prev) <= f.index;
      StepKeepsCounts(gs, f);
      StepKeepsPositions(prev, gs, f);
      StepKeepsNamesDistinct(gs, f);
      StepKeepsCovers(prev, gs, f);
      StepKeepsOrder(gs, f, Bound(prev));
      StepKeepsSum(gs, f);
    }
  }

  /**
   * The grouping of the scan's findings: each group's count is the length of
   * its position list, its positions are exactly the indices of its name's
   * findings, names are distinct and every finding has its group, groups come in
   * first-occurrence order, and the counts add up to the number of findings.
   */
  lemma GroupsOfScan(ps: seq<Pattern>, text: string)
    ensures GroupsAgree(Findings(ps, text), GroupsOf(Findings(ps, text)))
  {
    FindingsSoundAndComplete(ps, text);
    GroupsOfFacts(Findings(ps, text));
  }

  // ---------------------------------------------------------------------------
  // The scan loop

  /**
   * The grouping update of `checkInvisibleChars`: when a group has the
   * finding's name, its count goes up by one and the finding's index is pushed
   * onto its positions, every other group staying as it was; otherwise a group
   * with count 1 and that single position is pushed at the end.
   */
  method RecordInGroups(found: seq<Group>, info: Finding) returns (found': seq<Group>)
    ensures GroupIndex(found, info.name).Some? ==>
      var k := GroupIndex(found, info.name).value;
      && |found'| == |found|
      && found'[k] == Group(info.name, found[k].count + 1, found[k].positions + [info.index])
      && forall j :: 0 <= j < |found| && j != k ==> found'[j] == found[j]
    ensures GroupIndex(found, info.name).None? ==> found' == found + [Group(info.name, 1, [info.index])]
  {
    var existing := GroupIndex(found, info.name);
    if existing.Some? {
      var k := existing.value;
      found' := found[k := found[k].(count := found[k].count + 1, positions := found[k].positions + [info.index])];
    } else {
      found' := found + [Group(info.name, 1, [info.index])];
    }
  }

  /** The update `RecordInGroups` states is one grouping step. */
  lemma RecordedIsGroupingStep(found: seq<Group>, info: Finding, found': seq<Group>)
    requires GroupIndex(found, info.name).Some? ==>
      var k := GroupIndex(found, info.name).value;
      && |found'| == |found|
      && found'[k] == Group(info.name, found[k].count + 1, found[k].positions + [info.index])
      && forall j :: 0 <= j < |found| && j != k ==> found'[j] == found[j]
    requires GroupIndex(found, info.name).None? ==> found' == found + [Group(info.name, 1, [info.index])]
    ensures found' == AddToGroups(found, info)
  {
    if GroupIndex(found, info.name).Some? {
      var k := GroupIndex(found, info.name).value;
      AddToGroupsBump(found, info);
      SameExceptAt(found, found', k, Group(info.name, found[k].count + 1, found[k].positions + [info.index]));
    }
  }

  lemma AddToGroupsBump(gs: seq<Group>, f: Finding)
    requires GroupIndex(gs, f.name).Some?
    ensures var k := GroupIndex(gs, f.name).value;
      AddToGroups(gs, f) == gs[k := Group(f.name, gs[k].count + 1, gs[k].positions + [f.index])]
  {
  }

  lemma SameExceptAt(gs: seq<Group>, gs': seq<Group>, k: nat, g: Group)
    requires k < |gs| == |gs'| && gs'[k] == g
    requires forall j :: 0 <= j < |gs| && j != k ==> gs'[j] == gs[j]
    ensures gs' == gs[k := g]
  {
  }

  /**
   * The loop of `checkInvisibleChars`: walks the text one code unit at a time,
   * looks each one up in the registry `ps`, records every hit and keeps the
   * grouped counts and the total.
   */
  method Scan(ps: seq<Pattern>, text: string) returns (findings: seq<Finding>, found: seq<Group>, total: nat)
    ensures findings == Findings(ps, text)
    ensures found == GroupsOf(findings)
    ensures total == |findings|
  {
    findings, found, total := [], [], 0;
    for i := 0 to |text|
      invariant findings == FindingsUpTo(ps, text, i)
      invariant found == GroupsOf(findings)
      invariant total == |findings|
    {
      var patternMatch := LookupIn(ps, text[i]);
      ScanStep(ps, text, i);
      if patternMatch.Some? {
        var p := patternMatch.value;
        var info := Finding(i, p.name, p.code);
        GroupsOfSnoc(findings, info);
        findings := findings + [info];
        var found' := RecordInGroups(found, info);
        RecordedIsGroupingStep(found, info, found');
        found := found';
        total := total + 1;
      }
    }
  }

  /**
   * `checkInvisibleChars` against the detector's own registry: the findings,
   * the groups and the total of the scan, with the grouping invariant, and the
   * total equal to the number of registry characters the text holds.
   */
  method CheckInvisibleChars(text: string) returns (findings: seq<Finding>, found: seq<Group>, total: nat)
    ensures findings == Findings(Patterns, text)
    ensures found == GroupsOf(findings) && total == |findings|
    ensures GroupsAgree(findings, found)
    ensures total == TotalOccurrences(text, |text|, Patterns)
  {
    findings, found, total := Scan(Patterns, text);
    GroupsOfScan(Patterns, text);
    FindingCountIsOccurrences(text);
  }
}
