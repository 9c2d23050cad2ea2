# Group source report: a Dafny model

`group_source_report.py` is a command-line report. For each requested
Microsoft Entra group name it asks Microsoft Graph for the group. It then
decides whether the group is synchronised from an on-premises directory
(`on-prem`) or lives only in the cloud (`cloud`), and prints one table row
per name.

This project models the logic of that report and proves properties of it.
The Graph call is kept abstract. The model covers:

- **Classification** (`classify_group`). Six rules are tried in priority
  order: the sync flag is True, the domain is populated, the SID is
  populated, the sync flag is False, and otherwise cloud. The model proves
  that this if-chain agrees with an independent rule table applied
  first-match-wins. It also proves which signal outranks which.
- **The `$filter` expression** (`fetch_group`). A single quote in the name
  is doubled before the name is put between quotes. The model proves that
  this escaping is reversible and injective. It also proves that an OData
  string-literal reader recovers exactly the requested name, and that the
  literal ends at the closing quote, so a name cannot break out of the
  literal.
- **Candidate selection** (`fetch_group`). The first case-insensitive match
  is chosen, unless it is the falsy empty object. Otherwise the first
  candidate is chosen, and None when there is none.
- **Names-file cleaning** (`load_group_names`). This covers `splitlines`,
  `strip`, and dropping blank lines and lines that start with `#`. It also
  covers the two fatal errors and the built-in list of names.
- **The evaluation loop** (`evaluate_groups`). This is an imperative method
  that produces one row per name, in order. A failed request becomes an
  `error` row and the loop carries on.
- **The table layout** (`print_table`). Column widths are the maximum of the
  header and every cell. Cells are padded with `ljust` and joined with two
  spaces, so every line has the same width and every cell starts at its
  column's offset.

Graph records are values of `Directory.Group`. Each field can be absent,
JSON `null`, or present, so the model can follow `dict.get`, `is True` and
Python truthiness exactly. The Graph service is the function type
`Lookup.GraphQuery`. It takes the `$filter` text and returns the payload's
`value` list (None when the key is missing) or the message of a request
exception.

## Model

| member | source | states |
|---|---|---|
| Classification.Classify | group_source_report.py:209-226 | not-found exactly when there is no record or the record is the empty object; on-prem exactly when the flag is True, the domain is populated or the SID is populated; cloud otherwise; never error. A cloud reason is the False-flag reason exactly when the flag is False. |
| Classification.ClassifyFollowsTable | group_source_report.py:209-226 | the if-chain gives the same result as the six-rule priority table read first-match-wins |
| Classification.SyncTrueOutranksAttributes | group_source_report.py:217-218 | with the flag True, the result is on-prem with the flag reason, whatever the domain and SID hold |
| Classification.DomainOutranksSidAndFalseFlag | group_source_report.py:219-220 | if the flag is not True, a populated domain decides the result, whatever the SID holds, even when the flag is False |
| Classification.SidOutranksFalseFlag | group_source_report.py:221-224 | a populated SID outranks an explicit False flag |
| Classification.ReasonDeterminesSource | group_source_report.py:210-226 | the reason text alone determines the source label |
| Classification.Label | group_source_report.py:211-226 | the text printed for each source: `cloud`, `on-prem`, `not-found` or `error`; none of them is empty |
| Classification.LabelInjective | group_source_report.py:211-226 | distinct sources print as distinct labels |
| Directory.Found | group_source_report.py:210 | `if group:` holds exactly for a returned group other than the empty object `{}` |
| Directory.Populated | group_source_report.py:219-221 | `if value:` fails for a missing key, for JSON `null` and for `""`, and holds for every other string |
| Directory.Text | group_source_report.py:240-244 | `group.get(key, "")` is non-empty exactly when the value is populated |
| Escaping.Count | group_source_report.py:174 | the number of quotes is at most the length, and zero exactly when there is no quote |
| Escaping.Escape | group_source_report.py:174 | the escaped text grows by exactly one character per quote |
| Escaping.Unescape | group_source_report.py:174 | the inverse reading never lengthens the text |
| Escaping.UnescapeEscape | group_source_report.py:174 | unescaping an escaped name gives back the name |
| Escaping.EscapeInjective | group_source_report.py:174 | distinct names give distinct escaped names |
| Escaping.EscapePaired | group_source_report.py:174 | in an escaped name every quote belongs to a doubled pair |
| Escaping.PairedIsEscaped | group_source_report.py:174 | every text whose quotes come in pairs is the escaping of some name |
| Escaping.ReadEscaped | group_source_report.py:174-176 | an OData literal reader run on the escaped name followed by a closing quote returns the name and stops at that quote |
| Lookup.FilterExpression | group_source_report.py:174-176 | the filter is `displayName eq '`, then a literal that reads back as exactly the requested name and ends the text; also gives its length |
| Lookup.FirstMatch | group_source_report.py:199-202 | the index of the first candidate whose display name equals the request case-insensitively; None exactly when no candidate matches |
| Lookup.SelectCandidate | group_source_report.py:199-206 | None exactly when there are no candidates; otherwise one of the candidates: the first match unless it is the empty object, or else the first candidate |
| Lookup.FetchGroup | group_source_report.py:171-206 | a request error propagates unchanged; otherwise the result is the candidate selection applied to the payload's `value` list (empty when the key is missing), so it is one of the groups returned for this name's filter, and None exactly when the payload has no `value` or an empty one |
| Lookup.SelectIgnoresCase | group_source_report.py:200 | requests that differ only in the case of ASCII letters select the same group |
| Lookup.FirstMatchIgnoresCase | group_source_report.py:200 | requests that differ only in the case of ASCII letters have the same first match |
| Lookup.LowerChar | group_source_report.py:200 | an upper-case ASCII letter becomes the letter at the same place in `a`..`z`; every other character is unchanged; the result is never an upper-case ASCII letter |
| Lookup.Lower | group_source_report.py:200 | `lower()` keeps the length |
| Lookup.LowerFacts | group_source_report.py:200 | `lower()` leaves no upper-case ASCII letter, keeps every other character in place, and is idempotent |
| Lookup.NameMatches | group_source_report.py:200 | a candidate whose display name equals the request matches it; a match has the same length as the request |
| Lookup.Candidates | group_source_report.py:197 | `payload.get("value", [])`: empty exactly when the key is missing or the list is empty; otherwise exactly the groups of the list |
| Names.LStrip | group_source_report.py:122 | `lstrip()`: drops the whitespace at the front of the line; the result is never longer |
| Names.RStrip | group_source_report.py:122 | `rstrip()`: drops the whitespace at the end of the line; the result is never longer |
| Names.LStripFacts | group_source_report.py:122 | the left strip is a suffix, everything it drops is whitespace, and it does not start with whitespace |
| Names.RStripFacts | group_source_report.py:122 | the right strip is a prefix, everything it drops is whitespace, and it does not end with whitespace |
| Names.Strip | group_source_report.py:122 | `strip` never lengthens the text and its result has no whitespace at either end |
| Names.StripRemovesOnlySpace | group_source_report.py:122 | `strip` returns a slice of the line, and everything outside that slice is whitespace |
| Names.StripSlice | group_source_report.py:122 | the stripped text is the slice that follows the leading whitespace |
| Names.StripTrailing | group_source_report.py:122 | everything after the stripped text is whitespace |
| Names.StripStripped | group_source_report.py:122 | stripping text with no whitespace at either end changes nothing |
| Names.IsSpace | group_source_report.py:122 | `isspace()` for one character; no printable ASCII character other than the space is whitespace |
| Names.IsLineBreak | group_source_report.py:121 | every `splitlines` boundary is also whitespace |
| Names.BeforeBreak | group_source_report.py:121 | the text before the first boundary holds no boundary |
| Names.LinesHaveNoBreak | group_source_report.py:121 | no line that `splitlines` returns holds a boundary |
| Names.ConsNoBreak | group_source_report.py:121 | a boundary-free line put in front of boundary-free lines keeps them all boundary-free |
| Names.BreakAfter | group_source_report.py:121 | in a boundary-free line followed by a newline, the first boundary is that newline |
| Names.SplitFirst | group_source_report.py:121 | such text splits into that line followed by the lines of the rest |
| Names.SplitJoin | group_source_report.py:121 | names joined with newlines split back into exactly those names, when none holds a boundary and the last is non-empty |
| Names.SplitJoinNewline | group_source_report.py:121 | the same with a final newline after the last name: it adds no line |
| Names.BreakIndex | group_source_report.py:121 | the first line boundary, with no boundary before it |
| Names.SplitLines | group_source_report.py:121 | `splitlines()`: no lines exactly for empty text; LinesHaveNoBreak and SplitJoin give the rest |
| Names.SingleLine | group_source_report.py:121 | non-empty text without a boundary is one line |
| Names.CleanLine | group_source_report.py:122 | one line contributes at most one name |
| Names.CleanLines | group_source_report.py:122 | the list of names is no longer than the list of lines |
| Names.CleanCons | group_source_report.py:122 | cleaning goes line by line from the front |
| Names.CleanAppend | group_source_report.py:122 | cleaning two pieces of a file one after the other is cleaning the whole file, so the lines keep their order |
| Names.CleanNamesStripped | group_source_report.py:122 | every name is non-empty and has no whitespace at either end |
| Names.CleanOrigin | group_source_report.py:122 | every name is the stripped form of a kept input line |
| Names.CleanComplete | group_source_report.py:122 | every kept input line reaches the output, stripped |
| Names.CleanIdentity | group_source_report.py:122 | lines that are already clean names come back unchanged |
| Names.Keep | group_source_report.py:122 | a kept line is non-empty and does not start with `#` |
| Names.StripEmptyIffBlank | group_source_report.py:122 | `line.strip()` is empty exactly when every character of the line is whitespace |
| Names.KeepMeans | group_source_report.py:122 | a line is kept exactly when some character is not whitespace and the raw line does not start with `#` |
| Names.PrintableLinesClean | group_source_report.py:122 | lines that start and end with printable characters and do not start with `#` come back from cleaning unchanged |
| Names.DefaultNamesAPrintable | group_source_report.py:44-83 | each of the first ten built-in names starts and ends with a printable character, and none starts with `#` |
| Names.DefaultNamesBPrintable | group_source_report.py:44-83 | the same for the next ten built-in names |
| Names.DefaultNamesCPrintable | group_source_report.py:44-83 | the same for the next ten built-in names |
| Names.DefaultNamesDPrintable | group_source_report.py:44-83 | the same for the last seven built-in names |
| Names.DefaultsAreClean | group_source_report.py:44-83 | there are 37 built-in names, and they obey the rules a names file is held to: cleaning them gives them back unchanged |
| Names.LoadGroupNames | group_source_report.py:114-127 | without a file, the built-in list; for a missing file, the "was not found" error; for a file with no usable line, the "No valid group names" error; otherwise the cleaned lines. A successful load is never empty. |
| Names.CleanFileLoads | group_source_report.py:121-127 | a file of clean names written one per line, with or without a final newline, loads as exactly those names, in order |
| Names.FlatMapAppend | group_source_report.py:122 | a comprehension over two concatenated lists is the concatenation of the two comprehensions |
| Batch.Evaluate | group_source_report.py:233-257 | a row's requested name is the name it was built for |
| Batch.FoundRecord | group_source_report.py:237-246 | the row of a request that succeeded: the requested name and the classification; the group's name, id and domain when it was found; empty match, id and domain otherwise |
| Batch.ErrorRecord | group_source_report.py:248-257 | the row of a failed request: source `error`, empty match, id and domain, and the reason "Graph request failed: " followed by the message |
| Batch.EvaluateRow | group_source_report.py:234-257 | an error row, with an empty match, id and domain and the reason "Graph request failed: " plus the message, exactly when the request failed; otherwise the classification of the selected group; a not-found row has an empty match, id and domain; a cloud or on-prem row carries the found group's name, id and domain |
| Batch.EvaluateOne | group_source_report.py:234-257 | the body of the loop for one name builds that name's row |
| Batch.EvaluateGroups | group_source_report.py:229-258 | one row per requested name, and row i is the row for names[i] |
| Batch.RowIndependent | group_source_report.py:233-257 | a row depends only on Graph's answer for that row's own filter, so a failure for another name changes nothing |
| Batch.RequestedNamesInOrder | group_source_report.py:233-258 | the requested names of the report are the input names, in order, duplicates included |
| Table.ColumnWidthBounds | group_source_report.py:275-278 | a column's width is at least its header and every cell, and equals one of them |
| Table.Header | group_source_report.py:266-273 | every column title is non-empty |
| Table.Cell | group_source_report.py:287 | the Source column shows the record's source label, which is never empty |
| Table.ColumnWidth | group_source_report.py:276 | a column is never narrower than its title |
| Table.Widths | group_source_report.py:275-278 | one width per column |
| Table.Repeat | group_source_report.py:281 | `"-" * w` has length w |
| Table.RepeatAll | group_source_report.py:281 | every character of `"-" * w` is a dash |
| Table.LJust | group_source_report.py:280 | `ljust(w)` has length equal to the larger of the text's length and w |
| Table.LJustShape | group_source_report.py:280 | `ljust` keeps the text as a prefix and pads it with spaces only |
| Table.JoinLength | group_source_report.py:280-288 | a joined line is as long as its parts plus the separators between them |
| Table.JoinAt | group_source_report.py:280-288 | in a joined line, part k starts at its column offset |
| Table.OffsetNext | group_source_report.py:280-288 | each part of a joined line starts right after the previous part and one separator |
| Table.JoinGap | group_source_report.py:280-288 | between each part of a joined line and the next stands the separator |
| Table.Dashes | group_source_report.py:281 | `"-" * widths[key]` for each column: one run per column, as long as the column is wide |
| Table.HeaderLine | group_source_report.py:280 | `header_row`: as wide as the table whenever every title fits its column |
| Table.SeparatorLine | group_source_report.py:281 | `separator`: always as wide as the table |
| Table.RowLine | group_source_report.py:287 | the line of one record: as wide as the table whenever every cell fits its column |
| Table.PaddedLengths | group_source_report.py:280-288 | cells that fit their columns pad to exactly the column widths |
| Table.PaddedWidth | group_source_report.py:280-288 | cells that fit their columns, padded and joined, make a line as wide as the table |
| Table.PaddedGap | group_source_report.py:280-288 | in such a line the two-space gap follows every column but the last |
| Table.RecordLayout | group_source_report.py:285-288 | for any widths a record fits in, its line is as wide as the table, with the record's value left-justified at column j's offset |
| Table.RowGap | group_source_report.py:285-288 | in each record's line the two-space gap follows every column but the last |
| Table.HeaderGap | group_source_report.py:280 | in the header line the two-space gap follows every column but the last |
| Table.SeparatorGap | group_source_report.py:281 | in the dashes line the two-space gap follows every column but the last |
| Table.PaddedRow | group_source_report.py:280 | one padded cell per column |
| Table.RecordCellsFit | group_source_report.py:275-278 | no cell of a record is wider than its column |
| Table.HeaderCellsFit | group_source_report.py:275-278 | no header is wider than its column |
| Table.PaddedLayout | group_source_report.py:280-288 | cells padded to their columns and joined make a line as wide as the table, with cell j left-justified at column j's offset |
| Table.RowLayout | group_source_report.py:285-288 | each record's line is as wide as the table, and its cell in column j is the record's value left-justified at column j's offset |
| Table.HeaderLayout | group_source_report.py:280 | the header line is as wide as the table, with each header left-justified at its column's offset |
| Table.SeparatorLayout | group_source_report.py:281 | at each column's offset the dashes line holds exactly as many dashes as the column is wide |
| Table.LinesSpan | group_source_report.py:280-288 | every line of a non-empty table has the same width |
| Table.RenderTable | group_source_report.py:261-288 | with no records, only the notice "No records to display."; otherwise the header, the dashes, then one line per record in order, all of them the same width |

## Left out

- Command-line parsing (`parse_args`), `main` and the CSV writer (`write_csv`) are not modelled. They only move data between the modelled parts and files.
- Reading environment variables (`require_env`), building the MSAL client and acquiring the token are not modelled. They are external services with no logic of their own to verify.
- The HTTP request, its headers, `$select`, `$count` and the timeout are not modelled. Graph is the abstract `GraphQuery`: a function from the `$filter` text to the payload's `value` list or a request-exception message. So in the model, Graph answers the same filter the same way within one run.
- The text of a request exception is whatever Graph's `GraphQuery` returns. How `requests` formats an exception is not modelled. Only `requests.RequestException` is caught; any other exception would end the run, and the model has no such path.
- Pagination (`@odata.nextLink`) is not modelled. The source does not follow it either and reads only the first page.
- `debug`/`--verbose` diagnostics and all printing are left out. `Table.RenderTable` returns the printed lines instead of printing them.
- Lookup.SelectCandidate: only ASCII letters are lower-cased. Python's `str.lower` covers all of Unicode, including characters whose lower case is longer than one character. Those cases are not modelled.
- Batch.Evaluate: a display name, id or domain that is JSON `null` becomes the empty string in the row. In the source, `dict.get(key, "")` returns `None` for a `null`, and the later `len()` in `print_table` would fail. The model keeps such a row printable instead.
- Lookup.FirstMatch: a candidate whose display name is JSON `null` is treated as the empty name. In the source, `None.lower()` would raise an `AttributeError`.
- Names.LoadGroupNames: reading the file is left out. The model starts from the file's text (UTF-8 decoding included) or from the fact that the path does not exist. A file that exists but cannot be read is not modelled.
- The classification reasons are the code's own strings, such as "onPremisesSyncEnabled=True".
- In `load_group_names`, `startswith("#")` applies to the raw line, not the stripped one, so an indented `  # note` line is kept as the name `# note`. The model keeps this behaviour as written.
- In `fetch_group`, `if exact:` tests the truthiness of the matched dictionary. A first case-insensitive match that is the empty object `{}` is skipped in favour of the first candidate, and the model keeps this.
