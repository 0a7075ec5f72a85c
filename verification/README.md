# BlastClearance search clause — a verified model

The blast clearance script takes a list of block identifiers and builds the
textual filter it later uses to select the matching push-back polygons from
the BlockInventory database. Each identifier `id` becomes the term

    BlockInventory.dbo.PushBackPolygon.PushBackPolygonId = id

with the identifier inserted verbatim (no quoting, no escaping). The terms are
joined by `" OR "` in input order. The script builds the clause in a
roundabout way. It truncates `searchfile.txt`, then appends to it: the first
term and `" OR "`, then each middle term and `" OR "` from a `counter` loop,
then the last term alone. A single identifier gets one term, and an empty
list gets nothing. Finally it reads the file back.

The model has three modules:

- `TextFiles` (`text_files.dfy`): the scratch file as its contents. Opening
  it in mode "w" empties it, writing appends to it, and reading returns all
  of it.
- `SearchClause` (`search_clause.dfy`): the term format and the clause as a
  pure separator join (`Clause`). It also holds what the loop has written
  after k identifiers (`SeparatedTerms`), Python's `str.split(" OR ")` and
  `str.count(" OR ")` (`SplitOnSeparator`, `SeparatorCount`), and a parser
  that recovers the identifiers from a clause (`ParseClause`). The lemmas
  relate all of these.
- `BlastClearance` (`blast_clearance.dfy`): `BuildSearchClause`, a method
  that follows the script statement by statement. It is proved equal to
  `Clause` through a loop invariant over the prefix written so far.

The file contents a previous run left behind are a parameter of
`BuildSearchClause`. Its postcondition does not mention them, so, as long as
nothing else writes the file during the run, the clause read back depends
only on the current identifier list.

Identifiers are opaque strings. Three properties, the separator count, the
absence of a trailing separator and the parse round trip, are stated for
identifiers free of the capital letter `O`; that condition is sufficient, not
necessary. The field prefix contains no `O`, so every `" OR "` in such a
clause is one the script wrote as a separator. When block identifiers are
integer keys, they always meet this condition. `InjectedSeparator` shows what
goes wrong without some such condition: an unescaped identifier such as
`1 OR 1=1` adds a separator of its own.

The code (`BlastClearance.py:52-59`) compares `PushBackPolygonId` to each
identifier unquoted and adds no further condition to the clause.

## Model

| member | source | states |
|---|---|---|
| BlastClearance.BuildSearchClause | BlastClearance.py:45-65 | Truncating the file, then the first-term, loop and last-term writes, then the read-back, yield exactly `Clause(blockInput)` whatever the file held before. An empty list reads back `""` and one identifier reads back `prefix + id`. The loop invariant: after each pass the file holds the first `counter` terms, each followed by `" OR "`. |
| SearchClause.Clause | BlastClearance.py:50-59 | The clause is empty exactly when the identifier list is empty. Otherwise it starts with the first identifier's term and ends with the last identifier's term: no separator is written after the last term. |
| SearchClause.TermIsVerbatim | BlastClearance.py:52-59 | Every term is the fixed field prefix followed by the identifier unchanged. The identifier can be cut back out of its term, and two terms are equal exactly when their identifiers are. |
| SearchClause.ClauseAsWritten | BlastClearance.py:50-57 | For n ≥ 1 identifiers, the clause equals what the script writes: terms 0 … n−2, each followed by `" OR "` (the first term, then the loop's middle terms), and then term n−1 with no separator. |
| SearchClause.ClauseSnoc | BlastClearance.py:53-57 | Adding one identifier to a non-empty list extends the clause by `" OR "` and that identifier's term. Nothing earlier changes. |
| SearchClause.ClauseNoTrailingSeparator | BlastClearance.py:56-57 | For a non-empty list of O-free identifiers the clause does not end in `" OR "`: the last term is written without a separator after it. |
| SearchClause.JoinEnds | BlastClearance.py:52-57 | A join begins with its first part and ends with its last part. This is the shape of the first write and of the separator-free last write. |
| SearchClause.ClauseOfOne | BlastClearance.py:58-59 | A single identifier gives exactly `prefix + id`. When the identifier has no `O`, the clause contains no `" OR "` at all. |
| SearchClause.ClauseSeparatorCount | BlastClearance.py:52-57 | For n ≥ 1 O-free identifiers, `str.count(" OR ")` of the clause is exactly n − 1. For the empty list it is 0. |
| SearchClause.ParseClauseRoundTrip | BlastClearance.py:50-59 | Splitting the clause on `" OR "` and stripping the prefix from each piece returns the identifier list itself, in order and with duplicates: one term per input element. |
| SearchClause.InjectedSeparator | BlastClearance.py:52-59 | Identifiers are inserted unescaped. The one-identifier list `["1 OR 1=1"]` gives a clause with one `" OR "`, and that clause does not parse back to the list. |

## Left out

- `RoadPortalToGeodatabase.py`: portal sign-in, hosted-feature export and download, and geodatabase copy calls. It is all network and vendor-library I/O with no local logic.
- `new_path` and `arc_output` (BlastClearance.py:9-18): thin wrappers over the GIS host application's project and message calls.
- Workspace paths, environment settings and `arcpy.GetParameter(0)` (BlastClearance.py:23-38): configuration and parameter input. The identifier list is the method's input instead.
- Real file I/O on `searchfile.txt`: file modes, I/O errors and the `f.mode == "r"` check are not modelled. The file is a string that is emptied, appended to and read back whole.
- `str.format` of non-string parameter values: each identifier is modelled as the text `format` would insert for it.
- The `print` of the clause (BlastClearance.py:68): output only.
- SearchClause.ClauseSeparatorCount: stated only for identifiers without a capital `O`, because an identifier containing text like ` OR ` adds separators of its own (see `InjectedSeparator`).
- SearchClause.ParseClauseRoundTrip: stated only for identifiers without a capital `O`, for the same reason.
- SearchClause.ClauseNoTrailingSeparator: stated only for identifiers without a capital `O`, because an identifier that itself ends in ` OR ` makes the clause end that way too.
- BlastClearance.BuildSearchClause: the read-back equals the written text only for identifiers that contain no carriage return and that the platform's default text encoding can encode. Python reads the file in text mode with universal newlines, turning `\r` and `\r\n` into `\n`, and a character the default encoding cannot encode raises an error at the write, leaving no clause at all.
- BlastClearance.BuildSearchClause: the independence from earlier file contents holds only while no other process writes `searchfile.txt`. The file is a relative path shared by every run in the same working directory, and a concurrent run could write it between the truncation (BlastClearance.py:45) and the read (BlastClearance.py:64). The `searchFile` parameter models only what the file held before the run.
- SearchClause.ClauseOfOne: the "no `" OR "`" half is stated only for an identifier without a capital `O`, for the same reason.
