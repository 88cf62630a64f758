# Submit-time value normalisation of the agent-mapping form

The page script of the agent-mapping frontend installs a click handler on every
submit control. Before the browser sends the form, the handler walks over all
text inputs on the page and rewrites each one's value:

- if the value is non-empty and the input's `name` attribute is exactly
  `postcode`, the value is upper-cased, every run of two or more whitespace
  characters is replaced by one space (`replace(/\s\s+/g, ' ')`), and the
  result is trimmed;
- every other value, including an empty postcode, is only trimmed.

This project models that rewrite as pure functions over strings (`seq<char>`)
and proves what it guarantees.

Modules, one per step of the rewrite:

- `Whitespace` (`whitespace.dfy`): the JavaScript whitespace set `IsWs` (the
  ECMAScript WhiteSpace and LineTerminator code points, which is both what `\s`
  matches and what `String.prototype.trim` removes), the shape predicates
  `AllWs`, `NoEdgeWs`, `NoAdjacentWs`, the leading-run length `LeadingWs`, and
  `NonWs`, the visible characters of a string in order.
- `Trimming` (`trim.dfy`): `Trim`, with its characterisation: trimming
  `p + t + q` gives `t` whenever `p` and `q` are whitespace and `t` has no
  whitespace at its edges.
- `UpperCase` (`upper.dfy`): `ToUpper`, upper-casing of the ASCII letters.
- `RunCollapse` (`collapse.dfy`): `CollapseRuns`, the reference definition of
  the global regular-expression replace, one token at a time (a token is a
  maximal whitespace run or one visible character); and `ReplaceWsRuns`, the
  left-to-right scan a regular-expression engine performs for `/\s\s+/g`,
  proved equal to it.
- `SubmitNormalization` (`submit.dfy`): `Normalize(name, value)` for one
  input, `NormalizeAll` for the handler's pass over all text inputs, and the
  properties of both.
- `Seqs` (`seqs.dfy`): generic sequence algebra used by the proofs.

An input's `name` attribute is an `Option<string>`: jQuery's `.attr('name')`
is `undefined` when the attribute is missing, and that never equals
`'postcode'`. An input's value is always a string; JavaScript's truthiness
test on it is "non-empty".

A lone whitespace character between two visible ones is NOT replaced by a
space: the pattern `\s\s+` needs at least two whitespace characters, so a
postcode typed as `ab1<TAB>2cd` is submitted as `AB1<TAB>2CD`
(`PostcodeLoneWsKept`, `ExampleLoneTab`).

## Model

| member | source | states |
|---|---|---|
| `Whitespace.LeadingWs` | app/assets/javascripts/scripts.js:12 | the length of the whitespace run at the start of a string: that prefix is all whitespace and the next character (if any) is not |
| `Trimming.Trim` | app/assets/javascripts/scripts.js:14 | `trim()` returns the slice of the input that lies between an all-whitespace prefix and an all-whitespace suffix, and that slice has no whitespace at either edge |
| `Trimming.TrimUnique` | app/assets/javascripts/scripts.js:14 | for whitespace `p`, `q` and a core `t` with no edge whitespace, trimming `p + t + q` gives exactly `t`; with `Trim`'s contract this pins down the result completely |
| `Trimming.TrimFixedPoint` | app/assets/javascripts/scripts.js:14 | a string is unchanged by trimming if and only if it has no whitespace at either edge |
| `Trimming.TrimIdempotent` | app/assets/javascripts/scripts.js:14 | trimming twice is the same as trimming once |
| `Trimming.TrimKeepsNonWs` | app/assets/javascripts/scripts.js:14 | trimming removes only whitespace: the visible characters are kept, in order |
| `Trimming.TrimAroundInterior` | app/assets/javascripts/scripts.js:12 | whitespace strictly inside a string, between two visible characters, survives trimming |
| `UpperCase.UpperChar` | app/assets/javascripts/scripts.js:12 | a lower-case ASCII letter becomes the upper-case letter at the same alphabet position; every other character is unchanged; the result is never lower-case and is whitespace exactly when the input is |
| `UpperCase.ToUpper` | app/assets/javascripts/scripts.js:12 | `toUpperCase()` (on ASCII letters) replaces each lower-case ASCII letter by its capital at the same position and keeps every other character where it is; so the length and the whitespace positions are unchanged and no lower-case ASCII letter is left |
| `UpperCase.ToUpperFixedPoint` | app/assets/javascripts/scripts.js:12 | a string is its own upper-case form if and only if it holds no lower-case ASCII letter |
| `UpperCase.ToUpperNonWs` | app/assets/javascripts/scripts.js:12 | upper-casing commutes with taking the visible characters |
| `RunCollapse.TokenLength` | app/assets/javascripts/scripts.js:12 | the first token of a non-empty string is one visible character, or, when the string starts with whitespace, its whole maximal leading whitespace run (all whitespace, followed by a visible character or the end) |
| `RunCollapse.TokenImage` | app/assets/javascripts/scripts.js:12 | what the first token is replaced by is whitespace exactly when the token is, and a visible character is copied as it is |
| `RunCollapse.CollapseRuns` | app/assets/javascripts/scripts.js:12 | `replace(/\s\s+/g, ' ')` never lengthens a string and keeps whether its first character is whitespace |
| `RunCollapse.CollapseRunsNoAdjacentWs` | app/assets/javascripts/scripts.js:12 | after the replace no two adjacent characters are both whitespace |
| `RunCollapse.CollapseRunsChars` | app/assets/javascripts/scripts.js:12 | every character of the result is a space or a character of the input |
| `RunCollapse.CollapseRunsLast` | app/assets/javascripts/scripts.js:12 | the last character of the result is whitespace exactly when the input's last character is |
| `RunCollapse.CollapseRunsFixedPoint` | app/assets/javascripts/scripts.js:12 | the replace leaves a string unchanged if and only if it has no two adjacent whitespace characters |
| `RunCollapse.CollapseRunsKeepsNonWs` | app/assets/javascripts/scripts.js:12 | the replace keeps the visible characters, in order, and adds none |
| `RunCollapse.CollapseRunsConcat` | app/assets/javascripts/scripts.js:12 | the replace distributes over any split point that is not inside a whitespace run |
| `RunCollapse.LoneWsKept` | app/assets/javascripts/scripts.js:12 | a single whitespace character between visible ones is kept as that character, not turned into a space |
| `RunCollapse.LongRunCollapsed` | app/assets/javascripts/scripts.js:12 | a run of two or more whitespace characters between visible ones becomes exactly one space |
| `RunCollapse.MatchEnd` | app/assets/javascripts/scripts.js:12 | the greedy `\s\s+` match starting at a position ends at the first non-whitespace character after it, or at the end of the string |
| `RunCollapse.ReplaceWsRuns` | app/assets/javascripts/scripts.js:12 | the engine's left-to-right global replace (match greedily where `\s\s+` matches, else copy one character) computes exactly `CollapseRuns` |
| `SubmitNormalization.Normalize` | app/assets/javascripts/scripts.js:11-15 | the handler's new value has no whitespace at either edge, is never longer than the old value (with ASCII upper-casing), and an empty value stays empty |
| `SubmitNormalization.OtherValueTrimmed` | app/assets/javascripts/scripts.js:13-14 | outside the postcode case the value loses its leading and trailing whitespace and nothing else: interior and letter case are unchanged |
| `SubmitNormalization.PostcodeNoAdjacentWs` | app/assets/javascripts/scripts.js:12 | a postcode value, empty or not, comes out with no two adjacent whitespace characters |
| `SubmitNormalization.PostcodeNoLowerAscii` | app/assets/javascripts/scripts.js:12 | a postcode value, empty or not, comes out with no lower-case ASCII letter |
| `SubmitNormalization.NormalizeKeepsVisible` | app/assets/javascripts/scripts.js:11-14 | the visible characters of the result are those of the input, upper-cased for a postcode and unchanged otherwise: none dropped, added or reordered |
| `SubmitNormalization.PostcodeVisibleOnly` | app/assets/javascripts/scripts.js:12 | a postcode without any whitespace is only upper-cased |
| `SubmitNormalization.PostcodeAllWs` | app/assets/javascripts/scripts.js:12 | a postcode made of whitespace only is submitted empty |
| `SubmitNormalization.PostcodeOuterWs` | app/assets/javascripts/scripts.js:12 | leading and trailing whitespace of any length around a postcode (including around an empty core) is dropped without affecting the rest |
| `SubmitNormalization.PostcodeLoneWsKept` | app/assets/javascripts/scripts.js:12 | inside a postcode a single whitespace character between visible ones is kept as it is (a tab stays a tab) |
| `SubmitNormalization.PostcodeRunCollapsed` | app/assets/javascripts/scripts.js:12 | inside a postcode a run of two or more whitespace characters between visible ones becomes one space |
| `SubmitNormalization.NormalizeIsNormal` | app/assets/javascripts/scripts.js:11-14 | every result of the handler is in normal form (no edge whitespace; for a postcode also no adjacent whitespace and no lower-case letter) |
| `SubmitNormalization.NormalizeFixedPoint` | app/assets/javascripts/scripts.js:11-14 | the handler leaves a value unchanged if and only if it is in normal form |
| `SubmitNormalization.NormalizeIdempotent` | app/assets/javascripts/scripts.js:9-17 | normalising an already normalised value changes nothing, on both branches |
| `SubmitNormalization.NormalizeAll` | app/assets/javascripts/scripts.js:10-16 | the pass over the text inputs keeps their number, order and names, and each new value depends only on that input's own name and value |
| `SubmitNormalization.NormalizeAllIdempotent` | app/assets/javascripts/scripts.js:9-17 | a second submit click leaves every input as the first one left it |
| `SubmitNormalization.ExamplePlainValue` | app/assets/javascripts/scripts.js:14 | a non-postcode value `"  hello  "` becomes `"hello"` |
| `SubmitNormalization.ExamplePostcode` | app/assets/javascripts/scripts.js:12 | the postcode `"  ab1  2cd  "` becomes `"AB1 2CD"` |
| `SubmitNormalization.ExampleLoneTab` | app/assets/javascripts/scripts.js:12 | the postcode `"ab1<TAB>2cd"` becomes `"AB1<TAB>2CD"`: the lone tab is not turned into a space |

## Left out

- jQuery selection and event wiring (`$(...)`, `.click`, `.each`, `.val`, `.attr`, lines 1, 4 and 9-10): the model takes the list of text inputs as a value and returns the rewritten list; the set of inputs is the one selected when the page loaded.
- Error-summary focus (lines 3-6): a DOM side effect. The `if (errorSummary)` test is on a jQuery object, which is always truthy, so it guards nothing.
- Skip-link focus redirect (lines 24-27): browser focus and tabindex behaviour, nothing to compute.
- `aria-hidden` marking of hidden inputs (line 30): a one-shot attribute write.
- Space-key activation of `a[role=button]` (lines 32-42): event handling and a synthetic click.
- `GOVUK.ShowHideContent` (lines 44-45): an external library; its source is not part of this model.
- UpperCase.ToUpper: models `toUpperCase` on the ASCII letters only. JavaScript applies the full Unicode case mapping, which also changes other letters and can lengthen a string (`ß` becomes `SS`); UK postcodes are ASCII.
- Strings are sequences of Unicode code points, while JavaScript strings are UTF-16 code units. No whitespace character lies outside the Basic Multilingual Plane, so the whitespace-related results are unaffected.
