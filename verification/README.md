# A Dafny model of the ClickHouse diagnostic collector

The collector gathers evidence from a ClickHouse server into a bundle that leaves the
customer's machine. This project models the parts of it where a small slip is expensive:
what it masks in the text it ships, what it runs and what later readers may trust, and how
the dashboard lays out the schema graph. `dafny verify dfyconfig.toml` checks everything.

Text is a sequence of bytes, one `char` per byte. Loops of the original are methods with
loops; each is proved against a function of its inputs, and the properties are lemmas about
those functions.

**Secrets in DDL** (`text`, `sql_*`). One lexer, `SqlLexer.Lex`, is the reference for the
four hand-written scanners of the redactor: call finder, closing parenthesis, argument cut and
the shared skipper. The pass itself is `SqlRedactor.Redact` on token lists. On it rest the
main results: for *every* text the output is the input with whole quoted arguments hidden and
blank argument lists emptied, and its tokens are those the pass produced; if the brackets
inside each top-level call nest properly, no credential of any known engine shows at any
depth, and a second pass changes nothing (which arguments are credentials is written out in
`SqlSecrets`, engine by engine, apart from the rules that pick them); and for every text, nested or not, the second pass
is idle exactly when the first left nothing showing. Some nesting condition is needed: the argument cut
counts square brackets, the search for `)` does not, and masking an argument can remove a
bracket. `SqlCounterexample` has a text on which the second pass acts.

**JSON lines** (`jsonl_*`). The field patcher edits lines without parsing them. For lines
that hold any JSON object, arrays and objects nested to any depth, it is shown equal to
rewriting single tokens, and patching commutes with reading the row exactly when every field is
served (`JsonlMeaning.Served`): the first key the byte search finds for it is a key of the row
itself, and it is the key that reads as the field. That fails in two ways: a key can be missed,
spelled with escapes or behind a carriage return (`JsonlExamples.FieldMissed`), and a nested key
of the same name can come first (`JsonlExamples.InnerKeyTaken`). Rows of strings, numbers and
arrays are always served (`JsonlRows.RowsRedacted`) when they are written as the server does.

**Mode suggestion** (`edit_distance`). The two-row table computes the least number of edits.

**Schema graph** (`graph_*`, `sorting`). Connected components by stack search, memoised
longest-path layers on graphs that may have cycles, and the packing of chains, single tables
and database sections. Tables are keys; the sizes are those the layout itself uses.

**Collection run** (`collect_mode`, `executor`, `run_log`, `log_entries`, `bundle`). A watchdog, a clock and
arbitrary outcomes drive which collectors run, what is logged, which files stay in the run
directory and whose rows the checks read afterwards. One promise does not hold as written in
`internal/bundle/bundle.go`, that a failed collector's partial file is not read. It is read when
no entry tells of the failure under the collector's name: an error text naming `UNKNOWN_TABLE`
makes the status map drop the entry (`Bundle.PartialRead`), and a query file whose extension is
not `.sql` is filed under a different name there (`Bundle.OtherExtension`).
`Bundle.ReadExactly` gives the exact condition for all runs, `Bundle.RowsExactly` what it
comes to for runs of `.sql` files.

**Keeper members** (`keeper_*`). The probe writes a member's file, the dashboard parses it;
both must agree on the member's state.

**Selections and printing** (`versions`, `discover`, `shell`, `ordering`).

Where the repository's comments and code differ, the model follows the code: the grid of
single tables is said never to be wider than the viewport, which holds exactly when one
column fits (`GraphSections.GridFits`); a query without a name breaks the watchdog's streak
of slow queries (`CollectMode.NamelessBreaksStreak`); a printed command pastes back into a
shell exactly when the binary's path, which is not quoted, needs no quoting
(`Shell.PrintedReadsBack`); and the argument behind a secret flag is masked as a whole exactly
when it does not itself look like a secret flag with a value (`Shell.FollowingMasked`).

## Model

| member | source | states |
|---|---|---|
| SqlScanners.SkipNonCode | internal/collection/sqlredact.go:212-242 | The skipper stops on the last byte of a quoted identifier or comment exactly where the reference lexer ends it, and declines everything else, single-quoted literals included. |
| SqlScanners.QuotedLiteralEnd | internal/collection/heuristics.go:236-251 | The heuristic pass finds the end of a quoted literal where the reference lexer ends it, or none when it is open. |
| SqlScanners.MatchingParen | internal/collection/sqlredact.go:295-329 | The byte-wise search for the closing parenthesis answers as the count of parenthesis tokens of the lexed rest does. |
| SqlScanners.SplitArgs | internal/collection/sqlredact.go:333-374 | The byte-wise cut yields the texts of the argument token lists, a blank list yielding none. |
| SqlScanners.NextCall | internal/collection/sqlredact.go:248-287 | The call found is the first one the token list has behind the start position, with its name and parenthesis. |
| SqlRules.MaskedForm | internal/collection/sqlredact.go:379-390 | Masking puts `'[HIDDEN]'` between the argument's own blanks exactly when the trimmed argument is a literal not yet hidden. |
| SqlRules.IndexTrimmed | internal/collection/sqlredact.go:379-390 | Searching a trimmed literal in its argument finds it behind the leading blanks and nowhere earlier. |
| SqlMasking.PositionsStable | internal/collection/sqlredact.go:46-135 | For every engine's rule, masking the picked positions never makes the rule pick a new one. |
| SqlMasking.MaskedTrim | internal/collection/sqlredact.go:379-390 | A masked argument trims to the marker and is not masked again. |
| SqlRedactor.RedactEachArg | internal/collection/sqlredact.go:177-182 | Overwriting the arguments in place leaves each one redacted on its own, and counts them. |
| SqlRedactor.MaskPositions | internal/collection/sqlredact.go:183-192 | The in-place loop over the picked positions is the repeated masking of the specification, with its count. |
| SqlRedactor.RedactArgs | internal/collection/sqlredact.go:177-192 | The arguments of one call, cut, redacted inside and masked, are those of the specification, with the count. |
| SqlRedactor.RedactCalls | internal/collection/sqlredact.go:160-199 | The recursive text pass terminates and equals the pass over the token list, text and count. |
| SqlSecrets.PositionsExactly | internal/collection/sqlredact.go:22-135 | For every engine the rules pick exactly the arguments that carry a credential: key id, secret key and session token of the S3 family unless the second argument is NOSIGN or a format, one further behind a cluster name; the password of the database engines, redis and external distributed tables; the connection string and key of Azure; nothing for any other name. |
| SqlSecrets.NoCredentialShows | internal/collection/sqlredact.go:137-199 | When the brackets inside each top-level call nest, no call of the output, at any depth, shows a credential. |
| SqlSecrets.HidesExactly | internal/collection/sqlredact.go:160-199 | For every call that closes, exactly the arguments that show a credential once redacted inside become the marker with their blanks kept; every other argument is what the pass makes of it on its own. |
| SqlCalls.LiteralCall | internal/collection/sqlredact.go:137-199 | From text to text: an identifier, blanks and a list of plain literals come out with the marker for every credential that says something and every other byte the same. |
| SqlLexer.LexCanonical | internal/collection/sqlredact.go:212-242 | A text is its tokens in order, and the token list lexes back to itself. |
| SqlLexer.LexFlat | internal/collection/sqlredact.go:212-242 | Token lists whose neighbours stay apart survive being written out and lexed again. |
| SqlLexer.SliceCanonical | internal/collection/sqlredact.go:333-374 | A stretch of tokens cut out of a text keeps its tokens when scanned afresh. |
| SqlAgreement.ScannersAgree | internal/collection/sqlredact.go:160-199 | For every text and every parenthesis with a partner, the argument list and then each argument, scanned afresh, put every byte in the region (code, literal, identifier, comment) it has in the whole text. |
| SqlAgreement.SliceReads | internal/collection/sqlredact.go:212-242 | Any stretch between token boundaries reads the same on its own as in place. |
| SqlAgreement.ArgReads | internal/collection/sqlredact.go:333-374 | Each argument the cut yields stands in the list and reads the same on its own. |
| SqlNesting.CloseNested | internal/collection/sqlredact.go:295-329 | When the parenthesis search meets no bracket mismatch, what lies before its answer is properly nested, though the search ignores square brackets. |
| SqlNesting.CloseExists | internal/collection/sqlredact.go:295-329 | On properly closed tokens the search succeeds. |
| SqlNesting.PiecesCommas | internal/collection/sqlredact.go:333-374 | Cutting arguments that were joined by commas gives the same arguments back when each is nested and has no comma at its top level. |
| SqlNesting.CommasPieces | internal/collection/sqlredact.go:333-374 | Joining what was cut gives the list back whatever its brackets. |
| SqlGuarantees.RedactCanonical | internal/collection/sqlredact.go:160-199 | For every text the reassembled tokens do not run together. |
| SqlGuarantees.OutputTokens | internal/collection/sqlredact.go:160-199 | Lexing the output of the pass gives exactly the tokens it assembled, for every text. |
| SqlGuarantees.RedactKeeps | internal/collection/sqlredact.go:160-199 | On properly nested tokens the pass keeps the bracket structure and the commas visible at each depth. |
| SqlGuarantees.NestedCloses | internal/collection/sqlredact.go:248-329 | In nested text every call the pass finds, at any depth, has its closing parenthesis. |
| SqlGuarantees.NothingShows | internal/collection/sqlredact.go:137-199 | When the brackets inside each top-level call nest, no position a rule picks shows a literal in the output, at any depth, and no blank argument list is left. |
| SqlGuarantees.NothingShowsAnywhere | internal/collection/sqlredact.go:137-199 | On nested text the output is nested, all its calls close, and none shows a literal at a picked position. |
| SqlGuarantees.CleanFixed | internal/collection/sqlredact.go:160-199 | A text that shows nothing is returned unchanged with count 0. |
| SqlGuarantees.LeftAlone | internal/collection/sqlredact.go:160-199 | For every text the pass returns it as it is and counts nothing exactly when no picked position shows a literal and no blank argument list stands. |
| SqlGuarantees.IdleExactlyWhenComplete | internal/collection/sqlredact.go:160-199 | For every text the second pass is idle exactly when the first left nothing showing: the two promises stand or fall together. |
| SqlGuarantees.SecondPassIdle | internal/collection/sqlredact.go:160-199 | Under the same nesting condition a second pass returns the same text and counts 0. |
| SqlCounterexample.SecondPassActs | internal/collection/sqlredact.go:295-374 | Without the nesting condition a second pass can act: a text where hiding one argument uncovers another. |
| SqlEdits.PassExplained | internal/collection/sqlredact.go:160-199 | For every text the output is the input, byte for byte in order, except whole arguments between single quotes turned into the marker with their blanks kept and blank lists dropped; each of them is all there is between a parenthesis or comma and the next comma or parenthesis; the count is 0 exactly when nothing was hidden. |
| JsonlPatch.SkipJSONBlanks | internal/collection/sqlredact.go:494-499 | The cursor moves to the first byte that is neither space nor tab. |
| JsonlPatch.AtJSONKeyPosition | internal/collection/sqlredact.go:486-492 | A quote opens a key exactly when, over spaces and tabs, a brace or comma precedes it. |
| JsonlPatch.JSONStringEnd | internal/collection/sqlredact.go:503-513 | The end of a string literal is its first unescaped quote, or none. |
| JsonlPatch.ReplaceJSONStringField | internal/collection/sqlredact.go:439-482 | One field of a line is patched at the first place its value is recognised, or the line is returned as it was. |
| JsonlPatch.RedactJSONLFields | internal/collection/sqlredact.go:408-427 | The body's lines are patched one by one for all fields and joined again, the counts added up. |
| JsonlTokens.ContentEnd | internal/collection/sqlredact.go:503-513 | On valid string content followed by a quote the end found is that quote, whatever the escapes. |
| JsonlTokens.KeyValue | internal/collection/sqlredact.go:439-482 | At a string literal of a line the patcher recognises a value exactly when the literal is the key behind a brace or comma, a colon and a string follow, and no carriage return lies between; the value is then that string. |
| JsonlTokens.NoOtherValue | internal/collection/sqlredact.go:439-482 | At no other byte of a line does it recognise one: not inside strings, array elements, numbers, brackets or white space. |
| JsonlTokens.PatchTokens | internal/collection/sqlredact.go:439-482 | On the tokens of any JSON text with brackets nested to any depth, patching the bytes replaces the string behind the first key found, all other bytes the same, with the count of the redactor. |
| JsonlMeaning.PatchFieldsTokens | internal/collection/sqlredact.go:408-427 | All fields together redact the string behind the first key of each, and nothing else, whatever their order; the counts add up. |
| JsonlMeaning.PatchCommutes | internal/collection/sqlredact.go:408-482 | For every line that holds a JSON object the patched line holds one, and reading it gives the row with just the named top-level strings redacted exactly when every field is served: its first key found belongs to the row and is the one that reads as the field, wherever a value would change. |
| JsonlRows.RowsRedacted | internal/collection/sqlredact.go:403-482 | Rows of strings, numbers and arrays, without carriage returns between tokens and with the fields named once and unescaped, come out with exactly the named fields redacted. |
| JsonlRows.FieldsInUse | internal/collection/sqlredact.go:398-401 | The two shipped field lists meet what the results ask of fields. |
| JsonlExamples.CodecExists | internal/collection/sqlredact.go:461-482 | A string reader and writer with the escapes of JSON meets what the results ask of `encoding/json`, for every redactor. |
| JsonlExamples.FieldMissed | internal/collection/sqlredact.go:486-499 | A valid line whose field keeps its value because a carriage return stands before the key. |
| JsonlExamples.InnerKeyTaken | internal/collection/sqlredact.go:439-482 | A valid line in which a nested key of the field's name is patched and the row's own field keeps its value. |
| JsonlBody.LinesKept | internal/collection/sqlredact.go:408-427 | For every body the output has the same number of lines, each the patched form of its own. |
| JsonlLines.ReadsOnce | internal/collection/sqlredact.go:429-482 | A line holds at most one JSON object, so its meaning is determined. |
| EditDistance.Distance | cmd/main.go:1260-1279 | The table with two swapped rows computes the recursive distance of the two texts. |
| EditDistance.LevIsLeast | cmd/main.go:1260-1279 | No script of insertions, deletions and substitutions is shorter than the distance. |
| EditDistance.LevIsReached | cmd/main.go:1260-1279 | A script of exactly that length turns one text into the other. |
| EditDistance.LevZero | cmd/main.go:1260-1279 | The distance is zero exactly between equal texts. |
| EditDistance.LevSymmetric | cmd/main.go:1260-1279 | The distance is the same both ways. |
| EditDistance.LevTriangle | cmd/main.go:1260-1279 | A detour is never shorter. |
| EditDistance.NearestMode | cmd/main.go:1248-1257 | For the trimmed lower-case spelling the suggestion is the first mode at least distance when that is two or less, and empty exactly when all modes are three or more away. |
| EditDistance.TrimmedParts | cmd/main.go:1249 | Trimming takes nothing but white space, and only at the ends. |
| GraphComponents.Adjacency | internal/dashboard/schema_graph.go:1083-1091 | The neighbour lists hold exactly the nodes an edge inside the set joins, in either direction. |
| GraphComponents.Search | internal/dashboard/schema_graph.go:1094-1106 | One stack search collects exactly the nodes joined to its start, each once, and marks them seen. |
| GraphComponents.ConnectedComponentsIn | internal/dashboard/schema_graph.go:1083-1108 | The groups are components, share no node and together are the set. |
| GraphComponents.SameGroup | internal/dashboard/schema_graph.go:1083-1108 | Two nodes share a group exactly when an undirected path of edges inside the set joins them. |
| GraphLayers.Directed | internal/dashboard/schema_graph.go:999-1010 | The in and out lists hold exactly the edges with both ends in the database, one entry an edge, in the order of the edges. |
| GraphLayers.DepthSearch.Dfs | internal/dashboard/schema_graph.go:1015-1029 | The search from a node keeps every depth already known; on a graph without cycles each depth it adds is the length of the longest walk ending there; on any graph it terminates. |
| GraphLayers.Depths | internal/dashboard/schema_graph.go:1012-1030 | Every node gets one depth below the node count, the longest walk's length when there is no cycle. |
| GraphLayers.EdgesGoDown | internal/dashboard/schema_graph.go:999-1030 | Without cycles every edge leads to a strictly later layer. |
| GraphLayers.Barycenters | internal/dashboard/schema_graph.go:1048-1054 | A node's barycenter is the mean position of its neighbours in the neighbouring layer, or the middle of that layer when it has none there. |
| GraphLayers.Reorder | internal/dashboard/schema_graph.go:1045-1068 | A barycenter pass permutes one layer so that it ascends by barycenter, then by name, and leaves every other layer alone. |
| GraphLayers.LayoutDatabase | internal/dashboard/schema_graph.go:999-1071 | After all passes every node is in the layer of its depth, once, and the depth bound is attained; every layer but the last ascends by the mean position of where its edges lead in the next layer as it is in the end, the last by that of where its edges come from. |
| GraphLayout.PlaceLayer | internal/dashboard/schema_graph.go:1162-1169 | A layer's boxes go below each other in their own column, clear of everything placed before. |
| GraphLayout.PlaceChain | internal/dashboard/schema_graph.go:1160-1173 | A chain's boxes do not overlap, fit the reported size, and each stands in the column of its depth. |
| GraphLayout.LayoutChains | internal/dashboard/schema_graph.go:1155-1174 | Every chain gets a layout of its own nodes that reaches the column of its depth and none further, each column from top to bottom in the order the crossing reduction arrives at; one without cycles has all its edges leading right. |
| GraphLayout.StackChains | internal/dashboard/schema_graph.go:1181-1192 | Stacked chains do not overlap, stand below each other in the given order, fit the reported block, and keep their columns. |
| GraphSections.PlaceChains | internal/dashboard/schema_graph.go:1176-1193 | The chains of a database stand from top to bottom by depth, then by size, whatever the locale makes of ties. |
| GraphLayout.GridSingles | internal/dashboard/schema_graph.go:1213-1222 | For any allowed column count the grid's boxes neither overlap each other nor the chains above, fit the reported size and stand in reading order. |
| GraphSections.PlaceSingles | internal/dashboard/schema_graph.go:1198-1222 | The single tables stand in reading order by kind, in the kinds' order, and by name within a kind. |
| GraphLayout.HeightSteps | internal/dashboard/schema_graph.go:1073-1079 | The height of a box grows by one step for each shown column, the first fourteen at most, and by one line for the rows. |
| GraphSections.GridFits | internal/dashboard/schema_graph.go:1206-1211 | The column cap keeps the grid's section within the viewport exactly when one column fits. |
| GraphSections.SplitGroups | internal/dashboard/schema_graph.go:1147-1152 | Components of one node become single tables, all others chains, in order. |
| GraphSections.SplitAll | internal/dashboard/schema_graph.go:1143-1153 | Chains and single tables together are the database's tables. |
| GraphSections.LayoutSection | internal/dashboard/schema_graph.go:1142-1238 | A database's section holds just its tables, inside the paddings, nothing overlapping; linked tables are in chains, the longest chain on top, whose depth is the section's; without cycles all edges between its tables lead right. |
| GraphSections.PlaceSections | internal/dashboard/schema_graph.go:1246-1266 | Section rectangles do not overlap, run in rows in the given order and wrap at the viewport; every table keeps its place within its section. |
| GraphSections.LayoutAll | internal/dashboard/schema_graph.go:1117-1267 | Exactly the shown databases' tables are placed; no two boxes overlap, each is inside its section, sections do not overlap and come by longest chain, then by size; within a section chains come longest first, their columns in the order of least crossings, then the other tables by kind; every edge inside a database without cycles leads at least one column right. |
| Sorting.SortRanked | internal/dashboard/schema_graph.go:1240-1244 | Sorting ranks the elements by what the comparison looks at first, however it breaks ties. |
| Sorting.SortOrdered | internal/query/executor.go:377-382 | Sorting under a weak order leaves no later element before an earlier one. |
| Sorting.SortUnique | internal/query/executor.go:365-384 | Without ties the sorted list does not depend on the order the elements came in. |
| CollectMode.Watchdog.constructor | internal/collectmode/collectmode.go:201-203 | A new watchdog is untripped, unlocked, not started, with the given budget. |
| CollectMode.Watchdog.Locked | internal/collectmode/collectmode.go:181-184 | Only the lock changes. |
| CollectMode.Watchdog.WithTripBudget | internal/collectmode/collectmode.go:188-191 | Only the trip budget changes. |
| CollectMode.Watchdog.OnTrip | internal/collectmode/collectmode.go:194-198 | Only the callback changes. |
| CollectMode.Watchdog.Start | internal/collectmode/collectmode.go:206-210 | The budget clock starts at the time read. |
| CollectMode.Watchdog.Observe | internal/collectmode/collectmode.go:215-232 | One observation is one step of the watchdog's state machine. |
| CollectMode.Watchdog.TripNow | internal/collectmode/collectmode.go:234-245 | Tripping sets reason and, without a budget, the trip budget from now on, and calls back; a locked watchdog is left alone. |
| CollectMode.Watchdog.Trip | internal/collectmode/collectmode.go:249-253 | An external trip is one step of the state machine and keeps an earlier reason. |
| CollectMode.Watchdog.OverBudget | internal/collectmode/collectmode.go:264-269 | The answer is whether, by the times of all events so far, the budget is spent: a given one since the last start, a trip budget since the trip or a later start. |
| CollectMode.TrippedExactly | internal/collectmode/collectmode.go:215-253 | Over all runs an unlocked watchdog is tripped exactly when it was told to, an observation timed out, or two consecutive observations were slow. |
| CollectMode.NamelessBreaksStreak | internal/collectmode/collectmode.go:223-231 | Two slow observations in a row leave the run full when the first has no name. |
| CollectMode.LockedNeverTrips | internal/collectmode/collectmode.go:181-245 | Over all runs a locked watchdog never trips, never calls back and keeps its budget. |
| CollectMode.TrippedForGood | internal/collectmode/collectmode.go:215-253 | Once tripped a run stays so with its first reason, and nothing is called back again. |
| CollectMode.SpentExactly | internal/collectmode/collectmode.go:206-269 | Over all runs: a given budget is spent exactly when more than it has passed since the last start; without one, the trip budget of an unlocked run exactly when more than it has passed since the later of the trip and the last start after it. |
| CollectMode.ReasonExactly | internal/collectmode/collectmode.go:215-253 | A run keeps the reason of the moment it became essential: what it was told, the query that timed out, or the two slow ones in their order. |
| CollectMode.CalledOnce | internal/collectmode/collectmode.go:193-245 | A callback registered first is called exactly once in a run that trips, with the reason the run keeps, and never otherwise. |
| CollectMode.BudgetKept | internal/collectmode/collectmode.go:234-245 | A given budget is never replaced; without one the trip budget comes with the trip and only then. |
| CollectMode.OverForGood | internal/collectmode/collectmode.go:215-269 | With a clock that never goes back, a run over budget stays over budget. |
| CollectMode.RunAppend | internal/collectmode/collectmode.go:215-253 | A run can be cut anywhere: the second part starts from the state the first left. |
| RunLog.Recorder.WithGov | internal/runlog/runlog.go:65-70 | Only the gov switch changes. |
| RunLog.Recorder.Record | internal/runlog/runlog.go:123-139 | One entry is appended, its error redacted in gov mode, cut at 300 bytes and put on one line; nothing else changes. |
| RunLog.RecordedCell | internal/runlog/runlog.go:132-135 | A kept error text has no line break and no pipe and is short, so it is one cell of the log's table. |
| RunLog.GovKeepsCode | internal/runlog/runlog.go:74-88 | In gov mode the kept text depends on the message only through its numeric code, and never names a missing table. |
| RunLog.CollectorStatus | cmd/main.go:1508-1527 | The status map is the fold of the entries: last skipped or failed entry of a collector, except failures naming a missing table. |
| LogEntries.EntryExactly | internal/query/executor.go:205-321 | What the kept entry of each outcome says: a skip its reason, a failure its message, a written file its size and the number of its line breaks. |
| LogEntries.RecordedKept | internal/runlog/runlog.go:72-139 | Of a message the first 300 bytes are kept on one line without pipes; in gov mode only whether there was one and the digits of its first code. |
| RunLog.StatusTold | cmd/main.go:1508-1527 | A collector has a status exactly when some entry of its tells something. |
| RunLog.LastTells | cmd/main.go:1508-1527 | The status is that of the collector's last telling entry. |
| Ordering.LessTotal | internal/query/executor.go:381 | Different names are always ordered. |
| Ordering.LessFirst | internal/query/executor.go:381 | A name comes before another exactly when at the first place they differ it has the smaller byte or has ended. |
| Ordering.LessWeak | internal/query/executor.go:381 | The order of names is transitive, as sorting needs. |
| Executor.EssentialFirst | internal/query/executor.go:365-384 | Every essential collector comes before every other one, and names ascend within a tier. |
| Executor.OrderUnique | internal/query/executor.go:158-162 | The run's order does not depend on how the map of queries is listed. |
| Executor.Executor.constructor | internal/query/executor.go:56-83 | The executor holds what it was wired with, timeout test and redactor included. |
| Executor.Executor.Lookback | internal/query/executor.go:394-402 | The window cap is the configured one, else one day once the run is essential, else none. |
| Executor.Executor.ExecuteQuery | internal/query/executor.go:205-321 | Every way through one collector leaves exactly one log entry and the file that way leaves, asks the server at most once, hands back an error exactly for a failed entry, and writes only the server's reply passed through the redactor, or a part of it. |
| Executor.Executor.ExecuteObserved | internal/query/executor.go:180-182 | An executed collector is shown to the watchdog once, under its name, with whether it timed out and with a time that covers its query and lies within the time passed. |
| Executor.Executor.Decide | internal/query/executor.go:165-179 | A collector is kept from running for a reason that holds when it is decided: budget spent, Keeper session missing, or full tier in an essential run; otherwise none of these holds. |
| Executor.Executor.Next | internal/query/executor.go:163-189 | One collector is skipped with its reason or executed and observed, with one log entry either way. |
| Executor.Executor.ExecuteQueries | internal/query/executor.go:139-202 | Over a whole run with arbitrary outcomes: one entry per collector in the fixed order, counts that add up, the executed collectors a prefix of those a missing Keeper session does not block, one observation for each, only they reach the server, only redacted replies reach the disk; collectors that need a missing Keeper session are always skipped, and a budget skip falls at a time when, by the times of all events, the budget was spent. |
| Executor.CountsAddUp | internal/query/executor.go:155-189 | Successes, failures and skips add up to the collectors selected. |
| Executor.CountsAreStatuses | internal/query/executor.go:155-189 | The counts are those of the log's statuses, an empty query file counting as a success. |
| Bundle.Bundle.Path | internal/bundle/bundle.go:74-88 | The file found belongs to the collector, and none is found only when there is none. |
| Bundle.Bundle.Rows | internal/bundle/bundle.go:94-138 | Cached rows are returned as they are; a failed status or a missing file is an error with the status' reason; otherwise the file is opened and read, either of which may fail, and only a good read is cached. |
| Bundle.FileOfCollector | internal/query/executor.go:286-296 | In a fresh directory a collector has a file exactly when its own write left one, complete or not. |
| Bundle.StatusByFate | cmd/main.go:1508-1527 | After a run of .sql files the status map says of a collector what became of its work: skipped with the reason shown, failed with the kept message, and nothing for one that succeeded, was empty, named UNKNOWN_TABLE or was not there. |
| Bundle.ReadExactly | internal/bundle/bundle.go:94-138 | After any run into a fresh directory, whatever its query files are called, a collector is read exactly when a work of its base name left a file and the last entry that tells about the collector tells of no failure. |
| Bundle.RowsExactly | internal/bundle/bundle.go:94-138 | For runs of .sql files that is: its own entry is ok, or its write failed with a text naming UNKNOWN_TABLE and left a file. |
| Bundle.OtherExtension | internal/query/executor.go:286-296 | A failed entry of a query file with another extension whose partial file is read, in gov mode too. |
| Bundle.GovRowsOk | internal/bundle/bundle.go:94-138 | In gov mode a collector of a .sql run is read exactly when its entry is ok. |
| Bundle.PartialRead | cmd/main.go:1514-1519 | A failed entry, its error naming a directory UNKNOWN_TABLE, whose partial file is read. |
| Bundle.CollectAndRead | cmd/main.go:1506-1527 | Run, status and reading together: a collector is refused exactly when it may not be read in the above sense, for .sql runs with the state and reason its own work comes to; what is read is what the last work of its base name left. |
| FourLetter.CollectOne | internal/keeper/fourletter.go:441-559 | The file is header and seven sections; commands are sent in order up to the first network failure and none after it; the verdict is "not serving", with Keeper's sentence or in gov mode the verdict as the error, exactly when some reply is one of the two sentences, and "ok" exactly when none is and the three core commands replied; else the error is that of the last failure, withheld in gov mode; a file that cannot be written makes the outcome failed. |
| FourLetter.QuorumIs | internal/keeper/fourletter.go:80-94 | A reply counts as not serving exactly when it is, white space around it aside, one of the two sentences written out; any other reply with more than line breaks counts as answered. |
| FourLetter.SentenceBetween | internal/keeper/fourletter.go:80-94 | Either sentence with any white space around it is such a reply. |
| FourLetter.VerdictMeans | internal/keeper/fourletter.go:519-533 | Each verdict holds exactly for the answers it stands for: not serving when one answer said so, ok when the three core commands answered, down to failed when nothing answered, was refused or timed out. |
| Members.ReadSections | internal/keeper/members.go:82-86 | The loop over the split text builds the map of sections, later ones winning. |
| Members.IsAnswered | internal/keeper/members.go:89-100 | A section counts as evidence when it is a whole reply of the member's. |
| Members.ReadFacts | internal/keeper/members.go:101-111 | The loop over a section's lines builds the facts of the specification. |
| Members.FactsExactly | internal/keeper/members.go:101-111 | A fact is there exactly when a line of one of the four evident sections states it, with the value of the last such line. |
| Members.ReadState | internal/keeper/members.go:112-130 | The state is decided by the sections as a set, whatever the map's order. |
| Members.StateExactly | internal/keeper/members.go:89-130 | The four states by what the sections say: not serving when one is a sentence of a member without a quorum, else serving when srvr or mntr is evidence, else probe failed when a line begins "error:", else unknown. |
| Members.ParseMember | internal/keeper/members.go:74-130 | State and facts are those of the file's sections. |
| KeeperAgreement.SectionsRecovered | internal/keeper/members.go:82-86 | Parsing a written file gives back every section in full and nothing else, when no reply or error text has a line beginning like a heading. |
| KeeperAgreement.CleanFile | internal/keeper/fourletter.go:458-517 | Replies, partial replies and error messages without such lines make such a file. |
| KeeperStates.NotServingAgrees | internal/keeper/members.go:112-128 | The verdict is "not serving" exactly when the reader's state is. |
| KeeperStates.NoQuorumSeen | internal/keeper/members.go:112-128 | Verdict and state are both "not serving" exactly when some command was answered with one of the two sentences. |
| KeeperStates.OkServes | internal/keeper/members.go:112-128 | A member with verdict "ok" is read as serving exactly when its srvr or mntr reply cannot be taken for the collector's own notes. |
| KeeperStates.OkUnread | internal/keeper/members.go:89-128 | A member with verdict "ok" that is not read as serving. |
| KeeperStates.LostProbeFails | internal/keeper/members.go:112-130 | Verdicts "refused" and "timeout" are read as "probe failed". |
| KeeperStates.AnswerSeen | internal/keeper/members.go:89-100 | A section is evidence for the reader exactly when the probe counted its reply and the reply is evident. |
| Versions.FindCompatibleQueries | internal/query/finder.go:28-117 | The files found are the visible root files, then the visible files of compatible version directories, each in walk order. |
| Versions.FoundFiles | internal/query/finder.go:28-117 | Exactly the visible compatible files are found. |
| Versions.SelectHighestPriorityQueries | internal/query/selector.go:23-43 | The map holds for every name the file the fold by priority keeps. |
| Versions.PickHighest | internal/query/selector.go:23-72 | The kept file is of the name and no file of the name has higher priority. |
| Versions.ChoiceExactly | internal/query/selector.go:23-72 | A file is chosen exactly when it is compatible and has the greatest version not above the server's, or is the root's when no directory is compatible. |
| Versions.ChoiceByNumbers | internal/query/selector.go:23-72 | The same in plain numbers: the chosen file is visible, its version is not above the server's at the first number where they differ, and no such file of the name has a version above it; a root file only when no directory has one. |
| Versions.GreaterFirst | internal/version/compare.go:15-29 | A version is greater exactly when it is at the first of the four numbers where they differ. |
| Versions.ChoiceUnordered | internal/query/versioned.go:21-43 | The choice is the same for every order of the walk. |
| Versions.ExtKeepsChoice | internal/query/versioned.go:27-35 | Filtering by extension does not change the choice for the names it keeps. |
| Versions.FindVersionedFiles | internal/query/versioned.go:21-43 | The result is exactly the chosen files of the extension, in strictly ascending name order. |
| Discover.Keep | internal/clustercollect/collect.go:143-156 | The rows of the asked cluster, and the names of all. |
| Discover.SortedKeys | internal/clustercollect/collect.go:220-227 | Every name once, ascending. |
| Discover.CountShards | internal/clustercollect/collect.go:158-164 | For every cluster its distinct shard numbers. |
| Discover.FoldRows | internal/clustercollect/collect.go:177-203 | The map of machines holds the fold of each machine's rows, other loopback rows left out. |
| Discover.FoldedMeans | internal/clustercollect/collect.go:177-203 | A machine's node is labelled from the first of its rows of maximal rank and has the largest error count of all its rows. |
| Discover.FirstBestMeans | internal/clustercollect/collect.go:177-203 | That row is from a cluster with the most shards, not the one called default if another has as many, and the first of these. |
| Discover.Discover | internal/clustercollect/collect.go:142-218 | Exactly one node per machine, ordered by shard, replica and host; an unknown cluster is an error naming the known ones in order. |
| Shell.Shown | internal/clustercollect/collect.go:324-340 | The line is the binary and the quoted arguments with secret values masked. |
| Shell.ShownReadsBack | internal/clustercollect/collect.go:302-340 | For arbitrary arguments, a shell splits what is printed behind the binary into exactly the arguments, secret values masked. |
| Shell.MaskedExactly | internal/clustercollect/collect.go:302-340 | Of a password or salt flag with its value the flag is printed and four stars, of the argument behind such a flag four stars, all else as it is. |
| Shell.AttachedHidden | internal/clustercollect/collect.go:302-340 | The line does not depend on the value behind "=" of a secret flag. |
| Shell.FollowingHidden | internal/clustercollect/collect.go:302-340 | Nor on the argument behind a secret flag, unless it begins with a dash. |
| Shell.FollowingMasked | internal/clustercollect/collect.go:302-340 | Whatever that argument looks like, it is masked as a whole exactly when it is not itself a secret flag with a value. |
| Shell.PrintedReadsBack | internal/clustercollect/collect.go:302-340 | The whole printed line reads back as binary and masked arguments, for all arguments, exactly when no character of the binary's path means anything to a shell. |
| Shell.BlankSplitsPath | internal/clustercollect/collect.go:325 | The line printed for a path with a blank reads back with the path as two words. |

## Left out

- SqlGuarantees.NothingShows: requires proper nesting inside each top-level call, which is sufficient but not necessary; texts without it can come out clean or not (SqlCounterexample.SecondPassActs), and for each of them SqlGuarantees.IdleExactlyWhenComplete still ties the two promises together. SqlGuarantees.SecondPassIdle has the same condition.
- `RedactSQLText`'s second step, the keyword and URL patterns of `internal/collection/heuristics.go`: regular expressions; only the search for a literal's end is modelled. For JSON lines the redactor is any function on text.
- The string encoder and decoder of `encoding/json`: any pair that writes valid content, reads all of it and reads plain ASCII as itself (JsonlMeaning.Faithful), and with which the redactor's texts read back once written (JsonlMeaning.ReadsBack); JsonlExamples.CodecExists shows such a pair. Numbers are known by the bytes they are made of.
- EditDistance.NearestMode: takes the spelling as runes, one `char` per rune, and the lower case of a rune as a parameter; the alias table is not modelled.
- Node objects of the graph script: positions are maps from table keys, so several names for one node object are not captured; two tables never share a key.
- GraphSections.LayoutSection: does not model `Math.round(Math.sqrt(1.6 n))`; the column count is any value the cap allows. `localeCompare` and the default string order are parameters, so which of two chains or sections of the same depth and size comes first is not stated.
- Box sizes measured after rendering, drag and zoom, edge drawing and the DDL inference of edges.
- CollectMode: the wording of reasons, the timeout regular expression (a flag of the observation) and the load probe that chooses the mode; the clock never reads the zero time.
- Executor.Executor.ExecuteQuery: does not model how a query text is bound, formatted and validated; the results of these steps and the server's replies are arbitrary, and the redactor of replies is a parameter. The output format is the default one, whose files end in `.jsonl`, and dry runs are not distinguished.
- Bundle.Bundle.Rows: does not model line reading and JSON decoding; whether a file opens and what its content parses to are arbitrary functions, and the directory itself can be listed. Locks and concurrent recorders are not modelled.
- Bundle.RowsExactly: is about runs of query files whose names end in `.sql`; Bundle.ReadExactly has no such condition.
- FourLetter.CollectOne: does not model dialling, hashing of labels, file names or the reply filter of gov mode (an arbitrary function on replies); members are probed one at a time.
- Members.ParseMember: does not model the member's name, ensemble, role, version and numbers, which regular expressions and number parsing take from the header and the facts; the flags drawn from them are left out.
- Versions: directory names are parsed by an arbitrary function; the walk is a list of files with the name of their directory.
- Discover.Discover: takes loopback recognition as a parameter; folder labels and the commands run per node are left out.
- Shell.ShownReadsBack: the reader knows words, blanks, single quotes and backslashes; a character a shell might expand makes it give up, so nothing printed can be expanded.
- Shell.FollowingHidden: is about arguments that do not begin with a dash; Shell.FollowingMasked and Shell.MaskedExactly say what is printed for all of them.
- XML and YAML sanitizing, host facts, log copying, archives, alert rules, prompts and flags.
