# Pokemon database loader and query console, modelled in Dafny

This project models the core of a small Pokemon database tool. It has two parts.

**The resumable loader** (`load_pokemon_data.py`) reads PokeAPI documents for ids
1..N and writes them into SQLite with `INSERT OR IGNORE` statements. Ids already in
the `pokemon` table are skipped. It counts successes, skips and failures, and commits
after each processed id that is a multiple of 10. At the end it inserts the
deduplicated evolution edges, and only those whose two endpoints are stored. The model has these parts:

- `text.dfy` (`Text`): the Python string operations the code relies on. These are
  `strip`, `lower`, `split`, `join`, `ljust` and `int()`, the last as an
  optional-sign-plus-digits parser.
- `urls.dfy` (`PokeUrls`): `extract_pokemon_id_from_url`, and the species-to-pokemon
  URL rewrite of the evolution walk.
- `db.dfy` (`Db`): the database as an abstract value. Entity tables are maps from
  primary key to value. Relationship tables are sets of rows. It also has
  `INSERT OR IGNORE` and the guarded `insert_evolution`.
- `chain.dfy` (`EvolutionChain`): `collect_evolution_chain`, a recursive walk that
  threads one shared edge list.
- `records.dfy` (`Records`): the rows `process_pokemon` writes for one fetched
  pokemon, in execution order, and what it returns.
- `run.dfy` (`Run`): the loop of `main` as a step function over a run state
  (tables, counters, edges, commits).
- `loader.dfy` (`Loader`): the class `PokemonLoader`, whose methods update the
  tables and commits in place. It holds `process_pokemon`, `insert_evolution`, the
  main loop and the evolution pass, each proved against the functions above.

**The query console** (`menu.py`) reads one line per declared query parameter and
turns it into the values bound to the statement's `?` placeholders. SELECT and
modification queries follow different default and error rules. A modification runs
only after the answer "yes", and its text is split into statements on `;`. Results
are printed as a padded table.

- `params.dfy` (`QueryParams`): the per-type transforms (`like`, `in`, `int`, `str`),
  the default and required-input rules, both parameter loops, the confirmation check
  and statement splitting. Each loop step is stated on the stripped line
  (`SelectLine`, `ModLine`), as the code strips every typed line before using it;
  `SelectParam` and `ModParam` take the line as typed.
- `format.dfy` (`ResultFormat`): `format_results`, with its nested width loop.

The network, the terminal and SQLite are not modelled. Fetched documents, typed
lines and the confirmation answer are parameters. The loader's total is a
parameter too.

## Model

| member | source | states |
|---|---|---|
| PokeUrls.LastSegment | load_pokemon_data.py:94-96 | the segment read after trailing slashes are removed never contains `/` |
| PokeUrls.ExtractId | load_pokemon_data.py:92-96 | extraction fails exactly when the stripped last segment is not an integer literal, and then reports that segment |
| PokeUrls.LastSegmentOfUrl | load_pokemon_data.py:94-96 | `prefix/seg` followed by any number of slashes yields `seg` |
| PokeUrls.ExtractIdOfUrl | load_pokemon_data.py:92-96 | round trip: `prefix/{n}` followed by any number of slashes yields `n`, for every integer `n` and any prefix (so `.../pokemon/1/` gives 1) |
| PokeUrls.ExtractIdRejectsName | load_pokemon_data.py:92-96 | a URL whose last segment holds a letter is rejected |
| PokeUrls.SpeciesUrlId | load_pokemon_data.py:223-224 | rewriting `pokemon-species` to `pokemon` never changes the id read from `prefix/{n}/` |
| Text.ParseInt | load_pokemon_data.py:96 | `int()` succeeds exactly on a stripped optional sign followed by ASCII digits |
| Text.IntRoundTrip | load_pokemon_data.py:96 | `int(str(n)) == n` for every integer |
| Text.SplitJoin | menu.py:164 | joining non-empty separator-free pieces and splitting on the separator gives the pieces back |
| Db.InsertOrIgnore | load_pokemon_data.py:99-162 | after an insert the key is present; a present key leaves every table unchanged; a free key stores the row itself |
| Db.InsertOrIgnoreKeeps | load_pokemon_data.py:99-162 | no stored key or row is removed or overwritten, and no row other than the offered one appears |
| Db.InsertAllIdempotent | load_pokemon_data.py:99-162 | running the same batch of inserts twice equals running it once |
| Db.InsertAllNeverOverwrites | load_pokemon_data.py:99-162 | a stored row survives any batch of inserts unchanged |
| Db.InsertAllCoversKeys | load_pokemon_data.py:99-162 | after a batch every offered row's key is present |
| Db.PokemonCount | load_pokemon_data.py:168-170 | the count is at most 2, and is 2 exactly when the ids differ and both are stored pokemon |
| Db.InsertEvolution | load_pokemon_data.py:165-173 | the edge is present afterwards exactly when it was before, or both endpoints are distinct stored pokemon; no other edge and no other table changes |
| Db.InsertEvolutionGuard | load_pokemon_data.py:165-173 | a self-edge, or an edge with a missing endpoint, leaves all tables unchanged |
| Db.InsertEvolutionKeepsConsistent | load_pokemon_data.py:165-173 | the guarded insert never adds an edge whose endpoints are not stored |
| Db.OrderedKeepsConsistent | load_pokemon_data.py:248-286 | a batch in which each row finds the entities it refers to keeps referential integrity |
| EvolutionChain.CollectEvolutionChain | load_pokemon_data.py:218-234 | the shared list comes back extended with the edges of the whole chain, or the walk fails when some species URL holds no id |
| EvolutionChain.CollectChildren | load_pokemon_data.py:231-232 | the `evolves_to` loop appends the edges of each child subtree in document order, or fails on the first child that does |
| EvolutionChain.RootEdges | load_pokemon_data.py:218-234 | the root emits no edge; every other node emits exactly one, in pre-order; there is one edge fewer than nodes |
| EvolutionChain.TargetsArePreOrder | load_pokemon_data.py:226-232 | below a parent, the edge targets are the subtree's nodes in pre-order, children in array order |
| EvolutionChain.RootEdgesAreLinks | load_pokemon_data.py:226-232 | the emitted edges are exactly the parent-child links of the tree |
| EvolutionChain.EdgeEndpointsInTree | load_pokemon_data.py:218-234 | every id in an emitted edge is the id of a node of the chain |
| EvolutionChain.ResolveAllEach | load_pokemon_data.py:231-232 | a list of children resolves exactly when each child does, element by element |
| Records.RefRowsFailure | load_pokemon_data.py:258-286 | an entry loop completes exactly when every URL yields an id, and then writes two rows per entry |
| Records.RefRowsShape | load_pokemon_data.py:258-286 | entry `j` writes its entity row, then the link row from the pokemon to that entity |
| Records.ProcessAbsent | load_pokemon_data.py:240-242 | an absent pokemon document writes nothing and returns None |
| Records.ProcessWritesPokemonFirst | load_pokemon_data.py:248-256 | the pokemon row is written first, then height and weight (0 when missing); no other pokemon row and no edge follow |
| Records.ProcessStatDefault | load_pokemon_data.py:263-270 | each stat entry stores `base_stat`, or 0 when it is missing, against the stat id |
| Records.ProcessNoSpeciesNoEdges | load_pokemon_data.py:281-306 | without species data, a chain URL or a chain, the returned list is empty (unless a malformed URL raised first) |
| Records.EvolutionsOfChain | load_pokemon_data.py:289-304 | with a chain, the returned edges are those of the walk, or none when the walk raises (the exception is caught) |
| Records.StatementsMalformed | load_pokemon_data.py:258-286 | the statements stop early exactly when a type, stat, move or (with species data) dex URL yields no id |
| Records.ProcessMalformed | load_pokemon_data.py:258-286 | `process_pokemon` raises exactly when one of those URLs is malformed |
| Records.StatementsOrdered | load_pokemon_data.py:248-286 | the statements of one pokemon, cut short or not, run in a referentially safe order |
| Records.ProcessKeepsConsistent | load_pokemon_data.py:248-286 | executing the rows of one pokemon keeps referential integrity |
| Run.StepSkipCount | load_pokemon_data.py:346-349 | one step adds one to `skipped` exactly when the id is in the resume set |
| Run.StepSkipped | load_pokemon_data.py:346-349 | a skipped id only increments `skipped`: no write, no processing, no commit |
| Run.StepCompleted | load_pokemon_data.py:351-364 | a processed id writes its rows and moves one counter; its edges are appended; a commit follows exactly when the id is a multiple of 10 |
| Run.StepMalformed | load_pokemon_data.py:351 | a malformed URL aborts the run after the rows before it were written, without a batch commit |
| Run.RunVisitsInOrder | load_pokemon_data.py:344-351 | ids are processed in ascending order, each in 1..n and outside the resume set; without an abort every such id is processed |
| Run.RunCounts | load_pokemon_data.py:339-361 | without an abort, success + skipped + fail == n; every processed id is counted once |
| Run.RunFailures | load_pokemon_data.py:353-361 | `fail` counts exactly the processed ids for which `process_pokemon` returned None |
| Run.RunCommits | load_pokemon_data.py:346-364 | batch commits come only after processed ids that are multiples of 10, never after skipped ids, and after every such id |
| Run.RunSkipsLoaded | load_pokemon_data.py:344-349 | without an abort, the skip count is the number of resume-set ids in 1..n; it never exceeds n |
| Run.RunKeepsConsistent | load_pokemon_data.py:344-361 | the loop never leaves a row whose referenced entities are missing |
| Run.AddEvolutions | load_pokemon_data.py:369-373 | the evolution pass adds exactly the offered edges between distinct stored pokemon, and changes no other table |
| Run.AddEvolutionsKeepsConsistent | load_pokemon_data.py:369-373 | every edge the pass adds joins two stored pokemon |
| Run.ResultsShaped | load_pokemon_data.py:353 | for every id, `process_pokemon` either writes nothing (no pokemon document) or writes that id's pokemon row first |
| Run.InsertAllKeepsPokemon | load_pokemon_data.py:99-102 | inserting rows never removes a stored pokemon id, so the resume set only grows |
| Run.RunStoresLeading | load_pokemon_data.py:344-361 | after the loop, every id stored before and every processed id whose rows start with its pokemon row is stored, the aborting id included |
| Run.QuietUnlessStored | load_pokemon_data.py:325-361 | after a loop that did not abort, every id in 1..n that is not stored wrote nothing |
| Run.RerunLoop | load_pokemon_data.py:344-364 | when every unstored id in 1..m writes nothing, the loop skips the stored ids, keeps the tables unchanged and collects no edge |
| Run.RerunChangesNothing | load_pokemon_data.py:325-373 | running the loop and the evolution pass again over what a run without an abort left behind changes no table |
| Run.LoadIdempotent | load_pokemon_data.py:309-394 | loading twice with the same documents and n, the first load not aborting: the second changes no table, processes no id successfully and offers no edge |
| Run.AbortIsMalformed | load_pokemon_data.py:353 | the id a run aborts at is one whose statements stopped on a malformed URL |
| Run.RerunAfterAbort | load_pokemon_data.py:344-353 | after an abort at id k, k was not stored before and is stored after, so a second load skips it and never completes its rows |
| Run.MalformedFirstId | load_pokemon_data.py:249-260 | a pokemon whose first type URL ends in a name writes its pokemon, height and weight rows, then raises |
| Run.FirstLoadAborts | load_pokemon_data.py:344-353 | on an empty database with ids 1..2, the load aborts at id 1 with only id 1 stored |
| Run.AbortedLoadNotIdempotent | load_pokemon_data.py:344-394 | with those documents, id 2 is not stored after the first load but is stored after the second |
| Run.GuardedNeverAborts | load_pokemon_data.py:353-361 | with a malformed id counted as failed and its rows undone, the loop never aborts |
| Run.GuardedShaped | load_pokemon_data.py:353 | undoing a malformed id keeps every id's result either empty or led by its pokemon row |
| Run.GuardedLoadIdempotent | load_pokemon_data.py:309-394 | with malformed ids counted as failed, loading twice changes nothing the second time, whatever the documents |
| Loader.RunStaysAborted | load_pokemon_data.py:344-367 | after an abort, later ids change nothing |
| Loader.PokemonLoader.constructor | load_pokemon_data.py:314-315 | a connection starts with the given tables and no commits |
| Loader.PokemonLoader.LoadedIds | load_pokemon_data.py:212-215 | the resume set is exactly the set of stored pokemon ids |
| Loader.PokemonLoader.Insert | load_pokemon_data.py:99-162 | one `insert_*` statement updates the tables by `INSERT OR IGNORE` and makes no commit |
| Loader.PokemonLoader.InsertEvolution | load_pokemon_data.py:165-173 | the count-then-insert method updates the tables as `Db.InsertEvolution` says |
| Loader.PokemonLoader.InsertRefs | load_pokemon_data.py:258-286 | an entry loop writes its rows in order and stops at the first malformed URL, reporting it |
| Loader.PokemonLoader.ProcessPokemon | load_pokemon_data.py:237-306 | writes the rows of one pokemon in order and returns None, the edge list, or the error raised |
| Loader.PokemonLoader.CollectSpeciesEvolutions | load_pokemon_data.py:289-304 | the edge list is the chain walk's, or empty when the URL or chain is missing or the walk raises |
| Loader.PokemonLoader.InsertUniqueEvolutions | load_pokemon_data.py:369-373 | each distinct collected edge is offered to `insert_evolution` exactly once; the tables end as `AddEvolutions` says |
| Loader.PokemonLoader.ProcessId | load_pokemon_data.py:351 | the loop's call of `process_pokemon` for one id |
| Loader.PokemonLoader.RunIds | load_pokemon_data.py:344-367 | the loop ends in the state `RunTo` describes: tables, counters, edges, commits, abort |
| Loader.PokemonLoader.Load | load_pokemon_data.py:309-394 | `main`: the resume set from the stored ids, the loop, then the evolution pass and a commit, then the `finally` commit; an abort skips the pass; the tables left are `Run.LoadTables` of the old ones |
| QueryParams.LikePattern | menu.py:242-248 | the pattern always holds `%`; input with a `%` is kept, other input is wrapped in `%` |
| QueryParams.LikePatternIdempotent | menu.py:242-248 | wrapping is done at most once |
| QueryParams.SelectLike | menu.py:218-248 | a `like` parameter binds one value holding `%`; an empty line without a default binds `%` alone |
| QueryParams.InItems | menu.py:252 | the items are non-empty, stripped, lower-case and free of commas |
| QueryParams.InItemsJoin | menu.py:252 | round trip: clean items joined with commas read back as the same items, in order |
| QueryParams.InItemsOfPaddedItem | menu.py:252 | padding and letter case around a single item do not change what is read |
| QueryParams.PlaceholdersShape | menu.py:255 | the placeholder list is one `?` per value, separated by commas, of length 2n-1 |
| QueryParams.InValues | menu.py:250-268 | the `in` values are always clean items |
| QueryParams.InBindingShape | menu.py:250-258 | the `in` transform binds one text value and one `?` per item |
| QueryParams.SelectInClean | menu.py:231-268 | an `in` parameter binds clean lower-case items with a matching placeholder list, or nothing when skipped |
| QueryParams.SelectInCases | menu.py:231-268 | the items of the line when there are some; otherwise the default's items, `MissingInValues` without a default, or a skip for an empty line |
| QueryParams.SelectIntParsed | menu.py:270-273 | an `int` line that parses binds its value |
| QueryParams.SelectIntFallback | menu.py:274-280 | an unparseable `int` line binds `int(default)` for any truthy default, integer or text, and fails when that conversion raises; without a default it binds 0 |
| QueryParams.SelectIntEmpty | menu.py:218-230 | an empty `int` line without a default is skipped; with a truthy default, integer or text, it binds `int(default)` or fails when that raises |
| QueryParams.SelectStr | menu.py:282-284 | a `str` parameter is lower-cased only when it is named `move_name` |
| QueryParams.SelectAllResult | menu.py:208-288 | the SELECT loop succeeds exactly when every parameter does, and otherwise fails with the first error |
| QueryParams.BindSelect | menu.py:204-291 | the accumulating loop computes the SELECT bindings and stops at the first error |
| QueryParams.CollectResult | menu.py:110-160 | a stop-at-first-error loop yields every step's value in order, or the first step's error |
| QueryParams.ModRequiredEmpty | menu.py:119-139 | an empty `int` or `str` line without a default is refused as required |
| QueryParams.ModOptionalEmpty | menu.py:140-141 | an empty line of any other type without a default binds the empty text |
| QueryParams.ModIntParsed | menu.py:144-147 | an `int` line that parses binds its value |
| QueryParams.ModIntInvalid | menu.py:148-155 | an unparseable `int` line is refused without a default; with a truthy default, integer or text, it binds `int(default)` or fails when that raises |
| QueryParams.ModText | menu.py:156-160 | every type other than `int` binds its line unchanged, with no lower-casing |
| QueryParams.ModEmptyDefault | menu.py:119-122 | an empty line with a truthy default goes on as `str(default)`: `int` binds `int(default)` (or fails), other types bind the default's text |
| QueryParams.DefaultTextParses | menu.py:121 | `int(str(default))` parses exactly when `int(default)` does, to the same number |
| QueryParams.StatIncreaseDefault | queries.py:771-776 | with the text default `'10'`, an empty or non-numeric `stat_increase` line binds 10 |
| QueryParams.TypedPadding | menu.py:117 | whitespace around a typed line changes neither loop's result nor how `int()` reads it |
| QueryParams.ParseIntStripped | menu.py:146 | `int()` ignores surrounding whitespace, so stripping the line first changes nothing |
| QueryParams.ModAllResult | menu.py:110-160 | the modification loop binds exactly one value per parameter, in order, or fails with the first parameter's error |
| QueryParams.BindModification | menu.py:106-160 | the accumulating loop reads every parameter before any statement runs |
| QueryParams.ConfirmedAnyCase | menu.py:74-78 | "yes" in any letter case with any surrounding whitespace confirms |
| QueryParams.ConfirmedOnlyYes | menu.py:74-78 | only an answer that strips to three letters lower-casing to "yes" confirms |
| QueryParams.SplitStatements | menu.py:164 | each statement is non-empty, stripped and free of `;` |
| QueryParams.SplitStatementsJoin | menu.py:164 | round trip: clean statements joined with `;` split back into the same statements, in order |
| QueryParams.SplitSingleStatement | menu.py:195 | a text without `;` is one statement, or none when blank |
| QueryParams.ModificationGate | menu.py:72-164 | statements run only after "yes" and only when every parameter is accepted; an empty required parameter refuses the request |
| ResultFormat.ColumnWidthIsMax | menu.py:45-48 | a column is as wide as the widest of its header and its counted cells: at least each, and equal to one |
| ResultFormat.Widths | menu.py:45-48 | one width per column, each the column's maximum |
| ResultFormat.ComputeWidths | menu.py:45-48 | the nested loop computes exactly those widths |
| ResultFormat.FormatResults | menu.py:36-60 | the method builds the header, separator and row lines of `Format` |
| ResultFormat.FormatEmpty | menu.py:38-39 | an empty result prints "No results found." |
| ResultFormat.FormatLayout | menu.py:51-60 | the output starts with the header line, then a line of dashes exactly as long as the header |
| ResultFormat.NullPrintsNull | menu.py:56-58 | a NULL cell prints as `NULL` padded to its column's width |
| ResultFormat.RowAligned | menu.py:51-58 | when each column is at least as wide as its printed cells, a row line is exactly as long as the header |
| ResultFormat.CountedAlignedWhenTruthy | menu.py:47-58 | as written, rows line up with the header when all cells are truthy values |
| ResultFormat.CountedMisalignsNull | menu.py:47-58 | as written, a NULL under a header shorter than four characters prints past its column |
| ResultFormat.FittedAligned | menu.py:47-58 | with widths taken from the printed text, every row lines up with the header |

## Left out

- HTTP fetching (`fetch_pokemon_data`, `fetch_species_data`, the evolution-chain GET) is not modelled. Its results are the `Fetched` input: documents as `Option`, and the chain as None when the request fails.
- `get_pokemon_count` and its retry and backoff are not modelled; the total is a parameter of `Load`.
- `time.sleep`, the PRAGMA settings of `bulk_insert` and `restore_sqlite_settings`, commit durability and the closing of the connection are not modelled. A commit is an event in the `commits` list.
- `KeyboardInterrupt` handling and process exit are not modelled.
- JSON shape errors are not modelled: a missing `name`, `url` or `species` key, or a null where a list is expected, cannot arise because the documents are typed. Missing lists are `[]`, and missing `height`, `weight` and `base_stat` are `None`.
- `entry_number` is read but never stored, so it has no effect on the model.
- The SQL schema file is not part of this model. `pokemon_stat` is keyed by its whole row (pokemon, stat, value), and the foreign-key checks are stated as the `Consistent` invariant.
- A malformed type, stat, move or pokedex URL raises out of `process_pokemon`. `main` has no per-id handler, so the run stops there and only the `finally` commit happens. `Loader.PokemonLoader.Load` follows this code behaviour. Counting such an id as failed and going on is `Run.Guarded`, the corrected run of the finding below; the loader class does not use it.
- Loader.PokemonLoader.InsertUniqueEvolutions: the order of `list(set(...))` is left open (any order), since Python's set order is not part of the program's meaning.
- Run.RunSkipsLoaded: the skip count is stated only for runs that did not abort.
- Text.ParseInt: Python's `int()` also accepts underscores between digits and non-ASCII digits; the model accepts ASCII digits with an optional sign only.
- `strip` removes ASCII whitespace and `\x1c`-`\x1f`, as Python does for ASCII text. `lower` folds ASCII letters only; Unicode whitespace and case mapping are not modelled.
- `queries.py` (the SQL text, defaults and prompts) is not modelled. Defaults are `Default` values: integers or texts, with `''` for a missing default.
- `print_menu`, the console's main loop, `sqlite3` calls and the two-query special case of query 13 are not modelled.
- `query.format(placeholders)` is not modelled. The model records the placeholder lists in `Binding.formats`, in order.
- The per-query distribution of modification values over statements (queries 29-31) is not modelled.
- Every parameter reads exactly one line: the loops take one input per parameter (`|inputs| == |params|`). Lines after an error are never read by the source; in the model they are passed but unused.
- ResultFormat: cell texts are given as `str(val)` and truthiness as a flag. Float and integer formatting is not modelled. Columns have as many cells per row as the cursor reports.

## Findings

| source | as written | input that shows it | evidently intended | confidence | as-written member | corrected member |
|---|---|---|---|---|---|---|
| menu.py:47-58 | a NULL or falsy cell counts as width 0 but prints as `NULL` or `str(val)` | column `hp` over one NULL row: the header is `hp` and the row is `NULL`, two characters too long | every cell fits its column, so rows line up with the header | medium (not executed) | ResultFormat.CountedMisalignsNull | ResultFormat.FittedAligned |
| load_pokemon_data.py:344-353, 386-390 | a malformed URL raises out of `main` after the id's pokemon row was written, and the `finally` commit keeps that row; a second load takes the id as already loaded, skips it and goes on to the later ids | ids 1..2 on an empty database; id 1 has a type URL ending in `grass/`, id 2 has no lists: the first load stores only id 1, the second also stores id 2, and id 1 keeps no type, stat or move rows | a malformed reference fails that id only, the loop goes on, and loading twice gives the same tables | medium (not executed) | Run.AbortedLoadNotIdempotent | Run.GuardedLoadIdempotent |
