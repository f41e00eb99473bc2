# Invisible Unicode character detector — verified model

This project models the detection and reporting engine of the browser tool in
`script.js`. The tool finds invisible Unicode characters (zero-width spaces,
directional marks, format controls and so on) in a text and lists where they
are. It also highlights one of them in the editor and produces a plain-text
report. The model covers five parts:

- **`Registry`** (`registry.dfy`): the fixed, ordered table of 21 `{code, name}`
  entries and the exact-equality lookup `patterns.find(p => p.code === char)`.
  The codes are proved pairwise distinct, so the lookup is a well-defined
  partial function from a character to its entry.
- **`Scanner`** (`scanner.dfy`): the loop of `checkInvisibleChars`. It walks
  the text one code unit at a time. Every registry hit becomes a finding
  `{index, name, code}`. A grouped list `found` of `{name, count, positions}`
  is kept in first-occurrence order, along with the running `total`.
  - `Scan` is the loop as a method, proved against the specification
    functions `Findings` and `GroupsOf`.
  - The lemmas prove four things: soundness and completeness, strictly
    increasing in-range indices, the grouping invariant, and the total equal to
    the literal occurrence count.
- **`Selection`** (`selection.dfy`): the range arithmetic of
  `highlightPositionInText`.
  - It starts from a ±10 window, widens it with two `while` loops to whitespace
    boundaries, and falls back to `[p-5, p+6)`, clamped to the text, when the
    span exceeds 20.
  - The starting window is 21 wide unless it is clamped at an end of the text,
    so the word-aligned span is kept only within 10 characters of an end; at
    every other position the selection is the short window.
- **`Text`** (`text.dfy`): the JavaScript string operations the engine uses.
  - These are the `\s` class and `trim()`, `split(/\s+/)` and the word-count
    formula built on them.
  - They also include `substring` with its clamping and swapping,
    `replace(/\n/g, ' ')`, and the decimal rendering of a number.
- **`Report`** (`report.dfy`): `generateReport`. It is a function of
  - the `charsFound` flag,
  - the text,
  - the scan's findings (passed in instead of read from the global
    `invisibleCharPositions`),
  - and the rendered date and time (opaque strings).

  The `characterCounts` object is modelled as a map from name to count plus
  its key order. It is proved to agree with the scan's grouping.

A `char` stands for one UTF-16 code unit, because the source indexes `text[i]`
and compares it by code unit. Whitespace is the ECMAScript `\s` set: WhiteSpace
plus LineTerminator. That set includes U+FEFF and U+2009, which are also
registry codes.

The model follows the code as written in these places:

- The scan iterates by UTF-16 code unit (`text[i]`, script.js:195-196).
- The lookup is a linear first-match `find` over the table (script.js:197).
- The table has 21 entries (script.js:30-50), although the file's header
  comment (script.js:13) speaks of 20 character types.
- The excerpt after a finding is `text.substring(p + 1, min(len, p + 20))`
  (script.js:428-430), so it holds at most 19 characters.

## Model

| member | source | states |
|---|---|---|
| Registry.FindCode | script.js:197 | the index returned holds the character and no earlier entry does; none is returned only when no entry holds it (the first-match semantics of `find`) |
| Registry.Patterns | script.js:29-51 | the 21-entry table of codes and names, in source order; a constant: `RegistryCodesDistinct` and `CodeRankInvertsTable` state its properties |
| Registry.LookupIn | script.js:197 | a match exists exactly when some entry's code equals the character, and the returned entry is in the table with that code |
| Registry.LookupFindsTheMatchingEntry | script.js:197 | in a table with distinct codes, the lookup of entry `i`'s code returns entry `i` itself |
| Registry.CodeRankInvertsTable | script.js:29-51 | an independent code-keyed index maps each entry's code back to that entry's position |
| Registry.RegistryCodesDistinct | script.js:29-51 | the table has 21 entries and no two share a code |
| Registry.RegistryLookupIsExact | script.js:29-51 | in the detector's own table, a character equal to entry `i`'s code finds exactly entry `i`, so the lookup is deterministic |
| Text.SkipSpace | script.js:142 | the end of the whitespace run starting at `i`: all whitespace before it, a non-whitespace character (or the end) at it |
| Text.SkipWord | script.js:328-330 | the end of the non-whitespace run starting at `i`: no whitespace before it, whitespace (or the end) at it |
| Text.SkipSpaceBack | script.js:142 | the start of the whitespace run ending at `e`, preceded by non-whitespace or the text start |
| Text.SkipWordBack | script.js:323-325 | the start of the non-whitespace run ending at `e`, preceded by whitespace or the text start |
| Text.IsSpace | script.js:323 | the `\s` test of the two selection loops and of `trim`/`split`; no contract: it is membership in the ECMAScript WhiteSpace and LineTerminator set, and `SkipWord`/`SkipWordBack` give it its meaning in the loops |
| Text.Trim | script.js:142 | `trim()` is the slice `s[a..e]` with only whitespace before `a` and after `e`; it is empty exactly for a blank text and otherwise starts and ends with non-whitespace, so it is the text with its leading and trailing whitespace removed |
| Text.SplitFrom | script.js:142 | `split(/\s+/)`: one piece per span of `PieceSpans`, each piece the slice of the text that span marks |
| Text.SplitOnSpace | script.js:142 | `s.split(/\s+/)`, the split from index 0; no contract: `SplitFrom`, `PiecesAreMaximalRuns` and `SplitCountsRuns` give its meaning |
| Text.PieceSpans | script.js:142 | the spans cover the text in order: the first starts at the split point, the last ends at the text end, no span holds whitespace, consecutive spans are separated by a non-empty whitespace run, and every span but the first and the last is non-empty (`CutsAt`) |
| Text.PiecesAreMaximalRuns | script.js:142 | each piece of `split(/\s+/)` is a maximal non-whitespace run: preceded by whitespace or the split point, followed by whitespace or the text end, and empty only as the first or the last piece |
| Text.ConsCut | script.js:142 | a word run followed by a whitespace run, put in front of the cuts of the rest, gives the cuts of the whole |
| Text.SplitCountsRuns | script.js:142 | from the start of a word in a text ending in non-whitespace, the number of pieces is the number of maximal non-whitespace runs |
| Text.WordCountIsRuns | script.js:142 | the word-count formula is 0 exactly when the text is blank, and always equals the number of maximal non-whitespace runs |
| Text.WordCount | script.js:400 | the formula `trim() === '' ? 0 : trim().split(/\s+/).length`, used by both the live counter (script.js:142) and the report; no contract: `WordCountIsRuns` gives its meaning |
| Text.Substring | script.js:427-430 | for in-order bounds inside the text it is the slice `text[a..b]`; never longer than the text |
| Text.NewlinesToSpaces | script.js:429-430 | same length, every `\n` replaced by a space and every other character kept, no `\n` left |
| Text.Decimal | script.js:399-400 | a non-empty string of decimal digits without a leading zero |
| Text.DecimalRoundTrip | script.js:399-400 | reading the rendered digits back gives the number |
| Scanner.FindingAt | script.js:197-206 | a finding exists at `i` exactly when `text[i]` is a registry code; it carries index `i` and the looked-up entry's name and code |
| Scanner.FindingsUpTo | script.js:195-208 | the findings of the first `n` code units, one per registry hit, in index order; no contract: `FindingsSoundAndComplete` and `FindingCountIsOccurrences` give its meaning |
| Scanner.Findings | script.js:195-208 | the findings of the whole text; no contract: see `FindingsSoundAndComplete` |
| Scanner.ReportedSnoc | script.js:208 | pushing a finding reports its index and keeps every earlier index reported |
| Scanner.FindingsSoundAndComplete | script.js:195-208 | every finding is in range and names the entry its character matches; an index is reported exactly when its character is a registry code; indices strictly increase |
| Scanner.CleanTextHasNoFindings | script.js:192-199 | the findings are empty exactly when the text holds no registry character (so the empty text has none) |
| Scanner.CodeMatchesDistinct | script.js:197 | with distinct codes, a character matches one entry if it is a code and none otherwise |
| Scanner.FindingsCountHits | script.js:195-208 | the number of findings is the number of positions holding a registry code |
| Scanner.HitsAreOccurrences | script.js:195-208 | with distinct codes, that number is the sum over the entries of each code's literal occurrences |
| Scanner.FindingCountIsOccurrences | script.js:195-223 | the number of findings equals the sum over the 21 codes of their literal occurrence counts in the text |
| Scanner.GroupIndex | script.js:211 | `found.find(f => f.name === name)`: the returned group has that name; none means no group has it |
| Scanner.AddToGroups | script.js:211-221 | one grouping step; no contract: `AddToGroupsBump` and the `StepKeeps*` lemmas collected in `GroupsOfFacts` give its meaning |
| Scanner.AddToGroupsBump | script.js:212-214 | when the name has a group, the step replaces that group by one with the count plus one and the index pushed onto its positions |
| Scanner.GroupsOf | script.js:211-221 | the groups after all grouping steps; no contract: `GroupsOfFacts` gives its meaning |
| Scanner.SumCountsBump | script.js:212-214 | incrementing one group's count increments the sum of counts by one |
| Scanner.GroupsOfFacts | script.js:211-223 | for increasing findings, the grouping keeps count == number of positions, positions == that name's finding indices, distinct names, every name grouped, first-occurrence order, and sum of counts == number of findings |
| Scanner.GroupsOfScan | script.js:211-223 | the grouping of the scan's findings satisfies all of the above |
| Scanner.RecordInGroups | script.js:211-221 | when a group has the finding's name, its count goes up by one and the index is pushed onto its positions while every other group is unchanged; otherwise a group with count 1 and that single position is pushed at the end |
| Scanner.RecordedIsGroupingStep | script.js:211-221 | the state change `RecordInGroups` promises is exactly one grouping step, which `Scan` relies on to keep `found == GroupsOf(findings)` |
| Scanner.SameExceptAt | script.js:212-214 | a sequence equal to another except at one index is that other with the index updated |
| Scanner.Scan | script.js:195-225 | the loop's findings are the specified findings, its groups their grouping, and its total their number |
| Scanner.CheckInvisibleChars | script.js:185-225 | on the detector's table, the scan's groups satisfy the grouping invariant and the total equals the literal occurrence count of the registry codes |
| Selection.Expanded | script.js:318-330 | the widened span contains the initial ±10 window; its outer neighbours are whitespace or the text ends; no whitespace lies between the window and the new bounds |
| Selection.WindowStart | script.js:318 | `Math.max(0, position - maxWordLength/2)`; no contract: `SelectionRange` and `Expanded` state what it bounds |
| Selection.WindowEnd | script.js:319 | `Math.min(text.length, position + 1 + maxWordLength/2)`; no contract: see `Expanded` |
| Selection.Fallback | script.js:333-336 | `[max(0,p-5), min(len,p+6))`; no contract: `SelectionRange` proves it contains the position and spans at most 20 |
| Selection.WordStartIsNearest | script.js:323-325 | the left loop stops at the nearest whitespace boundary at or before the window start |
| Selection.WordEndIsNearest | script.js:328-330 | the right loop stops at the nearest whitespace boundary at or after the window end |
| Selection.SelectionRange | script.js:308-336 | a range exists exactly for `0 <= position < length`; then `start <= position < end <= length` and `end - start <= 20`; it is the widened span, or `[max(0,p-5), min(len,p+6))` when the widened span exceeds 20 |
| Selection.InteriorPositionFallsBack | script.js:318-336 | for a position at least 10 characters from both ends of the text the widened span exceeds 20, so the selection is always the short window there |
| Report.CharacterCounts | script.js:409-416 | the `characterCounts` object built by the `forEach`: every key `Object.keys` lists has a value |
| Report.Tick | script.js:411-414 | one `characterCounts` update; no contract: `TickPresentKey`, `TickNewKey` and `TickMirrorsStep` give its meaning |
| Report.TickPresentKey | script.js:411-412 | incrementing a present key mirrors bumping that name's group: same key order, that count plus one, the others unchanged |
| Report.TickNewKey | script.js:413-414 | setting a new key to 1 mirrors opening a new group at the end: the key is appended to the key order |
| Report.TickMirrorsStep | script.js:410-415 | one dictionary update keeps the dictionary in step with one grouping update |
| Report.CharacterCountsMirrorGroups | script.js:409-421 | the dictionary lists the grouping's names in the same order, holds no other key, and maps each name to its group's count |
| Report.ScanCharacterCounts | script.js:409-421 | for the scan's findings, dictionary names are distinct, each count is that name's number of findings and at least 1, and the counts sum to the number of findings |
| Report.BeforeIsPrecedingContext | script.js:426-429 | the excerpt before `p` has `min(p, 20)` characters, equal to `text[max(0,p-20)..p)` with `\n` shown as a space, and holds no `\n` |
| Report.AfterIsFollowingContext | script.js:426-430 | inside the text, the excerpt after `p` has `min(len-p-1, 19)` characters, equal to `text[p+1..min(len,p+20))` with `\n` shown as a space, and holds no `\n` |
| Report.ExcerptStart | script.js:427 | `Math.max(0, position - 20)`; no contract: `BeforeIsPrecedingContext` gives the resulting length `min(p, 20)` |
| Report.ExcerptEnd | script.js:428 | `Math.min(text.length, position + 20)`; no contract: `AfterIsFollowingContext` gives the resulting length `min(len - p - 1, 19)` |
| Report.Before | script.js:427-429 | the excerpt before a finding; no contract: `BeforeIsPrecedingContext` gives its meaning |
| Report.After | script.js:428-430 | the excerpt after a finding; no contract: `AfterIsFollowingContext` gives its meaning |
| Report.Details | script.js:395-400 | the date, time, character-count and word-count lines; no contract: the counts are rendered by `Decimal` (see `DecimalRoundTrip`) and the word count is `WordCount` (see `WordCountIsRuns`) |
| Report.Announcement | script.js:406 | the "Se encontraron N caracteres invisibles:" line; no contract: `FoundBodyLayout` places it |
| Report.CountLines | script.js:419-421 | one `- name: count veces` line per dictionary key, in key order; no contract: `CharacterCountsMirrorGroups` gives the keys and counts |
| Report.ExcerptBlock | script.js:432-433 | the numbered heading and quoted excerpt of one finding; no contract: its excerpts are `Before`/`After` |
| Report.ExcerptBlocks | script.js:425-434 | the excerpt blocks of all findings, numbered from 1 in finding order; no contract: `FoundBodyLayout` places them |
| Report.Body | script.js:403-435 | the none line, or the found part; no contract: `NoneLineExactlyWhenNothingFound` gives its meaning |
| Report.FoundBody | script.js:406-434 | the found part; no contract: `FoundBodyLayout` gives its layout |
| Report.GenerateReport | script.js:389-442 | the report always starts with the title and the rule and always ends with the rule, the footer line and the project URL; between them come the date/time/totals block and the middle part |
| Report.Opening | script.js:391-392 | the title and the rule lines; a constant: `GenerateReport` places it at the start |
| Report.Closing | script.js:437-439 | the rule, footer and project URL lines; a constant: `GenerateReport` places it at the end |
| Report.NoneLineExactlyWhenNothingFound | script.js:403-406 | the middle part is exactly the "No se encontraron…" line iff `!charsFound` or there are no findings |
| Report.FoundBodyLayout | script.js:405-434 | when something was found, the middle part is exactly the finding-count line, then the count lines, then the "Extracciones de contexto" heading, then the excerpt blocks |
| Report.FoundBodyParts | script.js:405-434 | where the four parts of the found part sit inside it |

## Left out

- DOM plumbing is not modelled: reading the text area, writing the result list and the HTML preview (script.js:227-292), event listeners, dropdowns and tooltips. The scan returns its findings and groups instead of writing global `invisibleCharPositions` and the page.
- The line-number gutter (`updateLineNumbers`) is left out. It depends on pixel layout.
- In `highlightPositionInText`, the line-number and scroll computation, focus, `setSelectionRange` and the flash timer (script.js:309-312 and 339-359) are left out. They are UI side effects. The model returns the selected range.
- `toLocaleDateString()` / `toLocaleTimeString()` are locale-dependent foreign calls. The model takes their results as opaque strings.
- Download and clipboard glue (`downloadReport`, `copyReport`, `showNotification`) is left out. It is browser I/O.
- Scanner.Finding: the `codePoint` field (script.js:205) is not modelled. It is the hex digits a regular expression extracts from the name and is used only for display. For the same reason, the fact that each registry name embeds its code point in `(U+XXXX)` form is not stated.
- Characters outside the Basic Multilingual Plane are not modelled. A `char` is one UTF-16 code unit, but Dafny characters cannot be lone surrogates. Registry codes are all single code units, so matching is unaffected.
- Scanner.Scan is stated for any table `ps`. The facts that need distinct codes are stated for the detector's own table through `Registry.RegistryCodesDistinct`.
- Report.Dictionary keeps the keys in insertion order. JavaScript would list array-index-like keys first, but no registry name looks like an array index.
