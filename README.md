# Layer table dependencies — a Dafny model

This project models how a map layer works out which database tables it reads
(`affected_tables` in `app/models/carto/layer.rb`), the small parser it applies to
the output of the database helper `CDB_QueryTables`, the owner-schema qualification
of table names, the SQL a layer renders with (`default_query`, `wrapped_sql`), the
classification of layers by `kind`, and the permission checks built on the
dependency list. It proves properties of that model.

A layer either points at an analysis node through `options[:source]` (the graph
branch) or uses its own `query` and `table_name` options (the direct branch). In
the graph branch every source descendant of the node contributes the tables of its
`params[:query]` and of its `options[:table_name]`. In both branches the result is
flattened, nils are dropped and repeats removed, keeping first occurrences
(Ruby's `compact.uniq`). A query whose tables cannot be found contributes nothing
and never raises. A failing table-name lookup is not rescued and propagates.

Modules, one concern each:

- `Wrappers` (wrappers.dfy): `Option` (nil) and `Result` (a raised error).
- `RubyArrays` (ruby_arrays.dfy): `compact`, `uniq`, `flatten`, `select`, `all?`.
- `RubyStrings` (ruby_strings.dfy): `blank?`/`present?`, `split(',')` and `gsub` with a literal pattern.
- `LayerKinds` (layer_kinds.dfy): the kind predicates.
- `LayerConfig` (layer_config.dfy): options, layer data, analysis nodes, the collaborators.
- `QueryTables` (query_tables.dfy): the parser inside `affected_table_names`.
- `LayerSql` (layer_sql.dfy): `qualified_table_name`, `default_query`, `wrapped_sql`.
- `TableDependencies` (table_dependencies.dfy): `affected_tables` and its helpers, and the readability checks.
- `LayerRecord` (layer_record.dfy): the `Layer` class whose `user_tables` `register_table_dependencies` replaces.

The external collaborators are parameters, bundled in `LayerConfig.Collaborators`:

- `AnalysisNode.find_by_natural_id` and `source_descendants`;
- `CDB_QueryTables` (its text, or a database error);
- `Table.get_all_user_tables_by_names` (a list whose entries may be nil, or a database error).

The per-call parameters are:

- `safe_table_name_quoting` (`quote`);
- the owner's `sql_safe_database_schema` (`ownerSchema`);
- the requesting user's username (`requester`);
- `readable_by?(user)` (`readable`).

Tables are a type parameter with equality.

How `gsub!` behaves: `gsub!` answers nil when it removed nothing. So a piece of the helper's output
without a brace is dropped, not kept as it is. For a braced list of two or more names, only the
first and the last name survive (`QueryTables.ParseBracedList`). For example,
`{public.a,public.b,public.c}` yields `public.a` and `public.c` (`QueryTables.ParseThreeTables`).
The model keeps this behaviour of the code.

Points of the code worth knowing, all kept by the model:

- For a layer that is not a data layer, `register_table_dependencies` leaves `user_tables`
  unchanged (`app/models/carto/layer.rb:211`).
- The query wrapper's placeholder is the literal `<%= sql %>` (`:185`).
- The owner-qualified default query is ` select * from "owner".<quoted table> `, in lower case
  with a space at each end (`:203`). The table name passes through `safe_table_name_quoting`.
- `source_descendants` produces the nodes to visit. The model takes that sequence as given and
  adds no cycle guard.
- Every piece of the helper's output that holds no brace is dropped, as described above, and so
  is every piece that is blank once its braces are removed.
- An options hash whose only entry is `table_name` holding nil is not empty, so the direct branch
  looks up the empty name (`TableDependencies.NilTableNameLookedUp`).

## Model

| member | source | states |
|---|---|---|
| `TableDependencies.AffectedTables` | app/models/carto/layer.rb:7-25 | No map or empty options gives no tables. It fails exactly when the candidate tables fail. A result has no duplicates, holds exactly the candidate tables, and keeps them in first-occurrence order. |
| `TableDependencies.AffectedTablesNone` | app/models/carto/layer.rb:8-13 | No map, empty options, or a `source` naming no node: the result is `[]`. |
| `TableDependencies.GraphBranchTables` | app/models/carto/layer.rb:14-21 | Graph branch: fails iff some source node's lookup fails. Otherwise a table is a dependency iff some source descendant contributes it. |
| `TableDependencies.GraphBranchFailingQuery` | app/models/carto/layer.rb:14-21 | A node whose query cannot be analysed contributes no query tables and never makes the walk fail: the walk fails iff some node's table-name lookup raises. When it succeeds, that node's table-name tables are in the result. |
| `TableDependencies.GraphBranchIgnoresOwnOptions` | app/models/carto/layer.rb:9-21 | With `source` present, the layer's own query, table name and user name do not affect the result. |
| `TableDependencies.DirectBranchTables` | app/models/carto/layer.rb:23 | Direct branch: fails iff the table-name lookup fails. Otherwise a table is a dependency iff the query or the table name yields it. |
| `TableDependencies.GraphSources` | app/models/carto/layer.rb:11-14 | No node for the visualization and `source` gives none. Otherwise it gives that node's `source_descendants`. |
| `TableDependencies.NodeTables` | app/models/carto/layer.rb:15-19 | A node fails iff its table name exists and that lookup raises. Otherwise its tables are the query tables, then the table-name tables if it has a table name. |
| `TableDependencies.NodesTables` | app/models/carto/layer.rb:14-20 | The walk fails iff some node fails, with the first failing node's error. Otherwise it gives one entry per node, in order. |
| `TableDependencies.TablesFromQuery` | app/models/carto/layer.rb:31-38 | Never fails. Blank query, helper error or lookup error gives `[]`. Otherwise it gives the lookup of the parsed names. |
| `TableDependencies.AffectedTableNames` | app/models/carto/layer.rb:220-229 | Blank query gives `[]`. Fails iff the helper fails. Names are duplicate-free, non-blank and brace-free, and equal to the parse of the helper's text. |
| `TableDependencies.SchemaQualifiedName` | app/models/carto/layer.rb:43-46 | With user and table name both present and no dot, it gives `"user".table`. Otherwise the table name is unchanged, even when blank, and nil becomes the empty string. |
| `TableDependencies.SchemaQualifiedNameIdempotent` | app/models/carto/layer.rb:45 | Qualifying an already qualified name again leaves it unchanged. |
| `TableDependencies.SchemaQualifiedNameChanges` | app/models/carto/layer.rb:45 | The name changes iff the user and table are present and the table has no dot. |
| `TableDependencies.TablesFromTableNameOption` | app/models/carto/layer.rb:40-47 | Empty options give `[]`. Otherwise it gives the lookup of the single qualified name, whose error propagates. |
| `TableDependencies.AffectedTablesReadableBy` | app/models/carto/layer.rb:79-81 | Fails iff `affected_tables` fails. Keeps exactly the readable dependencies, without duplicates, in their order in `affected_tables`. |
| `TableDependencies.NilTableNameLookedUp` | app/models/carto/layer.rb:40-47 | Options holding only a nil `table_name` are not empty: the result fails iff the lookup of the empty name fails, and otherwise holds exactly what that lookup finds. |
| `TableDependencies.Candidates` | app/models/carto/layer.rb:8-23 | The flattened, compacted tables before `uniq`: `[]` without a map or with empty options; in the graph branch `[]` for a missing node, else failing iff some node's table-name lookup raises; in the direct branch failing iff the table-name lookup fails. |
| `TableDependencies.DataReadableBy` | app/models/carto/layer.rb:83-85 | Fails iff `affected_tables` fails. True iff every dependency is readable. |
| `TableDependencies.DataReadableIffNothingFiltered` | app/models/carto/layer.rb:79-85 | `data_readable_by?` holds iff the readable filter removes nothing. |
| `QueryTables.ParseQueryTables` | app/models/carto/layer.rb:225-228 | Duplicate-free. A name is in the result iff some comma-split piece had a brace and is non-blank after stripping. Names hold no brace and no comma. |
| `QueryTables.ParseQueryTablesOrder` | app/models/carto/layer.rb:228 | Names keep the order of their first occurrence among the kept pieces. |
| `QueryTables.ParseQueryTablesEmpty` | app/models/carto/layer.rb:225 | Empty helper text gives no names. |
| `QueryTables.ParseBracedList` | app/models/carto/layer.rb:226-227 | `{n1,…,nk}` of plain names with k ≥ 2 yields only `n1` and `nk`. |
| `QueryTables.ParseThreeTables` | app/models/carto/layer.rb:226 | `{public.a,public.b,public.c}` yields `["public.a", "public.c"]`. |
| `QueryTables.RemoveBraces` | app/models/carto/layer.rb:226 | Result has no braces. It holds exactly the input's non-brace characters. A brace-free input is unchanged. |
| `QueryTables.RemoveBracesBang` | app/models/carto/layer.rb:226 | nil iff the piece had no brace. Otherwise it gives a shorter, brace-free string. |
| `QueryTables.PieceNames` | app/models/carto/layer.rb:225-227 | The `map` over the pieces: one entry per piece, the block's result for that piece. |
| `QueryTables.PieceName` | app/models/carto/layer.rb:226-227 | A piece yields a name only if it had a brace and the name is non-blank. When both hold, the name is the stripped piece. |
| `LayerSql.QualifiedTableName` | app/models/carto/layer.rb:91-99 | A present dotted table name is returned verbatim. Otherwise it is the quoted name, behind `schema.` when an owner schema is given. |
| `LayerSql.NeedsOwnerSchema` | app/models/carto/layer.rb:202 | The owner-schema select applies only with a user name and a table name, never when the requester is the owner and never for a dotted table name. |
| `LayerSql.OwnerQualifiedQuery` | app/models/carto/layer.rb:203 | The text is ` select * from "`, the user name, `".`, the quoted table and a final space, at those positions. |
| `LayerSql.DefaultQuery` | app/models/carto/layer.rb:191-208 | A present query is returned unchanged. Otherwise it is the owner-qualified select when needed, else `SELECT * FROM ` + qualified name. |
| `LayerSql.DefaultQueryDottedName` | app/models/carto/layer.rb:202-205 | No query and a dotted table: `SELECT * FROM ` + the name verbatim. |
| `LayerSql.DefaultQueryForeignTable` | app/models/carto/layer.rb:202-203 | Another user's undotted table gives ` select * from "user".<quoted> `. |
| `LayerSql.DefaultQueryOwnTable` | app/models/carto/layer.rb:198-205 | The owner asking gives `SELECT * FROM ` + quoted table. |
| `LayerSql.WrappedSql` | app/models/carto/layer.rb:181-189 | Unless the layer is torque and has a wrapper, the result is `default_query`. |
| `LayerSql.WrappedSqlSubstitutes` | app/models/carto/layer.rb:184-185 | A torque wrapper `pre <%= sql %> post` gives `pre` + `default_query` + `post`. |
| `LayerSql.WrappedSqlWithoutPlaceholder` | app/models/carto/layer.rb:184-185 | A torque wrapper without a placeholder is returned as it is. |
| `LayerSql.WrappedSqlReplacesEvery` | app/models/carto/layer.rb:184-185 | A torque wrapper `p0 <%= sql %> p1 … <%= sql %> pk` (k ≥ 1, no other occurrence) gives `p0` + `default_query` + `p1` … + `default_query` + `pk`: every placeholder is replaced. |
| `LayerKinds.IsCarto` | app/models/carto/layer.rb:145-147 | `carto?`: kind is carto, which is not a base kind. |
| `LayerKinds.IsTiled` | app/models/carto/layer.rb:149-151 | `tiled?`: kind is tiled, a base kind. |
| `LayerKinds.IsBackground` | app/models/carto/layer.rb:153-155 | `background?`: kind is background, a base kind. |
| `LayerKinds.IsGmapsbase` | app/models/carto/layer.rb:157-159 | `gmapsbase?`: kind is gmapsbase, a base kind. |
| `LayerKinds.IsWms` | app/models/carto/layer.rb:161-163 | `wms?`: kind is wms, a base kind. |
| `LayerKinds.IsBasemap` | app/models/carto/layer.rb:121-123 | True iff kind ∈ {gmapsbase, tiled}. Implies base. |
| `LayerKinds.IsBase` | app/models/carto/layer.rb:125-127 | True iff kind ∈ {tiled, background, gmapsbase, wms}. |
| `LayerKinds.IsTorque` | app/models/carto/layer.rb:129-131 | True iff kind is torque. A torque layer is not base. |
| `LayerKinds.IsDataLayer` | app/models/carto/layer.rb:133-135 | True iff kind ∉ {tiled, background, gmapsbase, wms}. Carto and torque layers are data layers. |
| `LayerKinds.IsUserLayer` | app/models/carto/layer.rb:137-139 | Equals base. True iff not a data layer. |
| `LayerKinds.IsNamedMapLayer` | app/models/carto/layer.rb:141-143 | Equals base or carto. A named-map data layer is exactly a carto layer. |
| `LayerRecord.Layer.RegisterTableDependencies` | app/models/carto/layer.rb:210-212 | A data layer records `affected_tables`, duplicate-free. On error it reports and records nothing. Other layers are unchanged. |
| `RubyArrays.Uniq` | app/models/carto/layer.rb:21 | No duplicates, same elements, no longer than the input. |
| `RubyArrays.UniqFirstOccurrenceOrder` | app/models/carto/layer.rb:21 | `uniq` keeps elements in the order of their first occurrences. |
| `RubyArrays.UniqOfNoDuplicates` | app/models/carto/layer.rb:23 | A duplicate-free array is its own `uniq`. |
| `RubyArrays.Compact` | app/models/carto/layer.rb:21 | Exactly the non-nil entries, no longer than the input. |
| `RubyArrays.CompactAppend` | app/models/carto/layer.rb:23 | `compact` distributes over concatenation. |
| `RubyArrays.Flatten` | app/models/carto/layer.rb:21 | An element is in the result iff it is in one of the inner arrays. |
| `RubyArrays.FlattenAppend` | app/models/carto/layer.rb:21 | `flatten` distributes over concatenation, so the inner arrays appear in order. |
| `RubyArrays.FlattenSingle` | app/models/carto/layer.rb:21 | `flatten` of one inner array is that array. |
| `RubyArrays.All` | app/models/carto/layer.rb:84 | `all?`: true iff every element satisfies the block. |
| `RubyArrays.Select` | app/models/carto/layer.rb:80 | Exactly the kept elements, no longer than the input. |
| `RubyArrays.SelectAppend` | app/models/carto/layer.rb:80 | `select` distributes over concatenation, so it keeps the order. |
| `RubyArrays.SelectNoDuplicates` | app/models/carto/layer.rb:80 | `select` of a duplicate-free array is duplicate-free. |
| `RubyArrays.SelectKeepsOrder` | app/models/carto/layer.rb:80 | On a duplicate-free array, the kept elements appear in their input order. |
| `RubyArrays.SelectDropsNothingIffAll` | app/models/carto/layer.rb:83-85 | `select` returns its input iff `all?` holds. |
| `RubyStrings.Fields` | app/models/carto/layer.rb:225 | At least one field, none holding the separator. |
| `RubyStrings.Split` | app/models/carto/layer.rb:225 | No piece holds the separator. |
| `RubyStrings.DropTrailingEmpty` | app/models/carto/layer.rb:225 | A prefix of the input with no trailing empty piece. Only empty pieces are dropped. |
| `RubyStrings.FieldsOfJoin` | app/models/carto/layer.rb:225 | Splitting a join of separator-free pieces gives the pieces back. |
| `RubyStrings.JoinOfFields` | app/models/carto/layer.rb:225 | Joining the fields of a string gives the string back. |
| `RubyStrings.ReplaceAllNoOccurrence` | app/models/carto/layer.rb:185 | `gsub` of an absent pattern changes nothing. |
| `RubyStrings.ReplaceAllAtStart` | app/models/carto/layer.rb:185 | An occurrence at the start is replaced, and scanning continues after it. |
| `RubyStrings.ReplaceAllSkipsPrefix` | app/models/carto/layer.rb:185 | A prefix in which no occurrence starts is copied unchanged. |
| `RubyStrings.ReplaceAll` | app/models/carto/layer.rb:185 | `gsub` with a literal pattern; replacing the pattern by itself changes nothing. |
| `RubyStrings.ReplaceAllSingle` | app/models/carto/layer.rb:185 | A single occurrence, with none starting before it or in what follows, is replaced by the replacement. |
| `RubyStrings.ReplaceAllInterleave` | app/models/carto/layer.rb:185 | Pieces glued by the pattern, with no other occurrence, become the same pieces glued by the replacement. |
| `RubyStrings.IsBlank` | app/models/carto/layer.rb:227 | `blank?`: true for the empty string, and true iff every character is whitespace. |
| `RubyStrings.Present` | app/models/carto/layer.rb:10 | `present?`: not nil and not blank, so a present string is non-empty. |
| `LayerConfig.IsEmpty` | app/models/carto/layer.rb:41 | `Hash#empty?` (and the negation of `options.present?` at `:8`): true iff the options hash has no entry at all. |

## Left out

- `lib/assets/javascripts/cartodb3/editor/style/style-content-view.js`: user-interface view code (rendering, event bindings, notifications). It is not part of the dependency logic.
- Collaborators: the database helper `CDB_QueryTables`, `Table.get_all_user_tables_by_names`, `AnalysisNode.find_by_natural_id`, `source_descendants`, `safe_table_name_quoting`, `sql_safe_database_schema` and `readable_by?`. Their code is not part of this model, so they are uninterpreted parameters.
- `source_descendants`: graph traversal and its termination belong to the analysis-node code. The model takes the descendant sequence as given.
- A NULL result from `CDB_QueryTables` (which makes `split` raise inside the rescued block) is folded into the helper's failure case.
- ActiveRecord associations and serialization (`:54-67`), logging (`:36`), the memoized `legend` and `user` (`:87-89`, `:177-179`), the `map`/`visualization`/`query` accessors (inlined), and the template paths with `TEMPLATES_MAP` (`:69-77`, `:102-119`): persistence, framework and file-system glue.
- `supports_labels_layer?` (`:165-167`): depends on nested untyped hashes and Ruby truthiness. It is outside the dependency logic.
- Unrescued nil cases are not modelled, because a raise there comes from missing data rather than from the dependency logic. The model does not cover a map without a visualization (`map.visualization.id`, `:11`), or a source node whose `params` or `options` are nil (`:15-16`). `qualified_table_name` reads the string key `options['table_name']` (`:92`, `:97`), while `default_query` and `tables_from_table_name_option` read the symbolized key (`:42-44`, `:192`). The model has one `tableName` field for both, so a hash holding the name under only one of the two spellings is not modelled.
- Options values are modelled as strings. Non-string values, `false`, a `nil` options hash, and keys present both as strings and as symbols are not modelled. `table_name ?` (`:17`) is modelled as "not nil".
- `RubyStrings.IsSpace` lists the characters Ruby's `[[:space:]]` matches as fixed code points. Locale-dependent behaviour is not modelled.
- WrappedSql: `gsub` interprets backslash sequences (`\0`, `\\`, ...) in the replacement string. The model substitutes the default query literally.
