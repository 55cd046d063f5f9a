# seatable-api table normalisation, modelled in Dafny

This project models the one piece of real logic in the `seatable-api` client
library: the transform that turns a fetched SeaTable base into tables whose
rows are keyed by column display names and whose select cells hold option
names instead of option ids. It covers, in `lib/index.ts`:

- `toDictionary`, the column index from column `key` to column;
- the option index half of `processTable` (`optionById`, `optionNameById`,
  keyed by the string `"{column name}.{option id}"`);
- `parseColumn`, the cell resolver for `single-select`, `multiple-select` and
  pass-through columns;
- the row normaliser half of `processTable` (`table.data`);
- the `Base` constructor, indexing processed tables by `_id` and by `name`;
- the `Seatable` client's token guard, its lazy caching of `auth` and `base`,
  and `getTable`'s name-then-id lookup.

Files and modules:

| file | module | contents |
|---|---|---|
| `wrappers.dfy` | `Wrappers` | `Option` (JavaScript `undefined`) and `Result` (a thrown error) |
| `js.dfy` | `Js` | dynamic values, truthiness, template-literal stringification (`ToKey`), objects built by successive property writes (`Apply`, `FromEntries`) |
| `schema.dfy` | `Schema` | options, columns, rows, raw tables, `ToDictionary`, the composite index key |
| `option_index.dfy` | `OptionIndex` | the two option indexes |
| `cells.dfy` | `Cells` | `parseColumn` |
| `tables.dfy` | `Tables` | the row normaliser and `processTable` |
| `base.dfy` | `BaseIndex` | the `Base` constructor |
| `client.dfy` | `Client` | the `Seatable` client as a state plus requests issued |

A JavaScript object is a `map<string, V>`. Every place the source builds an
object by assigning properties one after another (`Object.assign` in
`toDictionary`, the option index loops, the row record, the `Base` indexes) is
`Js.Apply` over a sequence of writes, whose contract states the three facts
all of them rely on: the keys are the base keys plus the written keys, the
last write to a key wins, and unwritten keys keep their value. A raw row is
the sequence of its own properties in `Object.entries` order.

Network access is not performed: `GetBase` and `GetTable` take the token
exchange reply and the fetched document as parameters and return the requests
they would issue, together with the new client state.

Behaviour of the code worth noting:

- Rows whose `"0000"` property is falsy are not dropped from `table.data`; they
  become `undefined` entries, so `data` has exactly one entry per raw row.
- The sentinel test is truthiness (`!row["0000"]`), not presence of the key:
  a row with `"0000": ""`, `0`, `false` or `null` is not a data row.
- A fetched document without `tables` makes the constructor throw a
  `TypeError` from `data.tables.forEach`. The model
  returns `Failure(MissingTables)`, and the client keeps the access token it
  cached before the failure and its previous base.
- The option indexes are keyed by concatenated strings, not by
  (column name, option id) pairs, so two different pairs can share a key when
  a column name contains '.' (`Schema.CompositeKeyCollides`); with dot-free
  names the key determines the pair (`Schema.CompositeKeyInjective`). The name
  a column's options are registered under is the name of the last column with
  the same key, not necessarily the column's own name.

## Model

| member | source | states |
|---|---|---|
| `Js.Apply` | lib/index.ts:176-181 | successive property writes: keys are the base keys plus every written key, the last write to a key wins, unwritten keys keep their base value |
| `Js.FromEntries` | lib/index.ts:131 | an object spread from entries has exactly the entries' keys, each holding the value of its last entry |
| `Schema.Lookup` | lib/index.ts:170-174 | `row[k]` is the value of the row's last entry `k`, and `undefined` when the row has no entry `k` |
| `Schema.OptionsOf` | lib/index.ts:159 | a column contributes options exactly when `data`, `data.options` exist and the list is non-empty, and then contributes that list |
| `Schema.LookupIsField` | lib/index.ts:170-174 | reading entry `k` off the row agrees with reading property `k` of the object the row's entries build |
| `Schema.ToDictionary` | lib/index.ts:131 | `toDictionary` maps exactly the columns' keys; for a repeated key the last column wins; every value is filed under its own key |
| `Schema.DictionaryColumn` | lib/index.ts:131 | the column `toDictionary` holds under a key is the last column carrying that key |
| `Schema.CompositeKeyInjective` | lib/index.ts:161-162 | with dot-free column names, equal index keys imply equal column names and equal option ids |
| `Schema.CompositeKeyCollides` | lib/index.ts:161-162 | in general two different (name, id) pairs can produce the same index key |
| `OptionIndex.RegisteredName` | lib/index.ts:155-158 | a column's options are registered under the name of the last column with the same key |
| `OptionIndex.IndexUpTo` | lib/index.ts:157-165 | after visiting a prefix of the columns both indexes hold exactly the keys those columns register, the name index holds the option index's option names, and each key holds the option written last under it |
| `OptionIndex.BuildOptionIndex` | lib/index.ts:152-167 | one key `"{name}.{option id}"` per option of every column with a non-empty option list and no other key; last write wins across columns and within a column; `optionNameById[k]` is `optionById[k].name` |
| `Cells.ResolveOption` | lib/index.ts:139 | a select lookup yields the registered display name when the key `"{name}.{value}"` is registered and `undefined` otherwise |
| `Cells.ParseColumn` | lib/index.ts:132-149 | single-select resolves the value; multiple-select yields an array of the same length whose elements are resolved one by one in order; any other type passes the value through |
| `Cells.MultipleSelectIsElementwise` | lib/index.ts:141-143 | each element of a resolved multiple-select array equals what a single-select cell of the same column holding that element resolves to |
| `Tables.FieldWrites` | lib/index.ts:176-181 | one write per row entry, in entry order: skipped when the key has no column, else the column's display name set to the resolved cell |
| `Tables.NormalizeRow` | lib/index.ts:168-184 | `undefined` exactly when `row["0000"]` is falsy; otherwise a record with exactly `id` plus the display names of the entries' columns, each field holding the resolved cell of the last entry writing it, and `id` holding `row._id` unless a column is named `id` |
| `Tables.NormalizeRows` | lib/index.ts:168 | one entry per row in row order, `undefined` exactly for the rows that are not data rows |
| `Tables.ProcessTable` | lib/index.ts:152-186 | the table keeps its id, name, columns and rows, gains the option indexes, and its `data` has the rows' length and order with each entry the row's normalised record or `undefined` |
| `Tables.SingleSelectResolvesToOptionName` | lib/index.ts:155-180 | a single-select cell holding an option's id resolves to that option's display name when no later option is registered under the same key |
| `Tables.UnknownOptionIsUndefined` | lib/index.ts:138-140 | a select value naming no registered option resolves to `undefined` |
| `BaseIndex.NewBase` | lib/index.ts:248-259 | no `tables` is a failure; otherwise `tableById` and `tableByName` hold exactly the tables' ids and names, each mapping to the processed last table with that id or name, and `tables` stays empty |
| `Client.NewClient` | lib/index.ts:193-196 | construction fails exactly when the token is falsy, and starts with no cached auth or base |
| `Client.GetBase` | lib/index.ts:221-236 | a token request is issued only when no token is cached; the base request carries the cached or new access token; success replaces the base, failure keeps the old base and the cached token |
| `Client.LookupTable` | lib/index.ts:216-217 | lookup by name first, then by id, else `undefined`, returning the table's `data` |
| `Client.GetTable` | lib/index.ts:212-218 | with a cached base no request is issued, the client is unchanged and `baseId` is ignored; otherwise it issues `getBase`'s requests with the default language and leaves the client exactly as `getBase` does, and it fails exactly when the fetched document has no `tables`, with `getBase`'s error; a successful result is the lookup in the resulting base |
| `Client.SecondGetTableIsCached` | lib/index.ts:212-218 | on a new client the first `getTable` issues exactly the token and base requests, and a second `getTable` issues none and answers from the cached base |
| `Client.GetTableFindsLastTable` | lib/index.ts:212-218 | `getTable(n)` after a fetch returns the data of the last table named `n`, else of the last table with id `n`, else `undefined` |

## Left out

- `getAuth` and the two `fetch` calls (lib/index.ts:199-210, 225-233): HTTP I/O. Replies are parameters and requests are returned as URL plus `Authorization` header; the `Accept` header and redirect following are not modelled.
- `async`/`await` and the unguarded lazy initialisation of `auth` and `base`: concurrent overlapping calls and their duplicate requests are not modelled; calls are sequential.
- `process.env.API_TOKEN`: environment input, unused by the client.
- The pass-through interface fields (views, editors, formatters, colours, timestamps, `id_row_map`): they carry no logic.
- Responses that are not JSON, an auth reply without `access_token`, and `tables`, `columns`, `rows` or `options` that are present but not arrays: runtime shapes the source does not handle; `AuthReply` always carries a string token.
- Schema.RawTable: absent fields are not expressible. A table without `columns` or `rows` makes the source throw (`data.map` at lib/index.ts:131, `table.rows.map` at lib/index.ts:168). A table without `_id` or `name` is filed under the key `"undefined"` (lib/index.ts:256-257). The model's tables always carry all four fields.
- `parseColumn`'s `if (!col) return null`: unreachable from `processTable`, which only calls it with a column; `Cells.ParseColumn` always receives one.
- Cells.ResolveOption: a cell value that is an object with its own `toString` property (such as `{"toString": "x"}`) makes the template literal `${value}` throw a `TypeError` at lib/index.ts:139; `Js.ToKey` turns every object into `"[object Object]"`, so the model resolves such a value instead of failing.
- Cells.ParseColumn: the same `${value}` crash is not modelled, for a single-select value (lib/index.ts:139) and for an element of a multiple-select array (lib/index.ts:142); the model resolves those values instead.
- Cells.ParseColumn: a `multiple-select` value that is not an array makes the source throw a `TypeError` on `value.map`; the model makes that a precondition instead of modelling the crash.
- Properties inherited from `Object.prototype` (a row key such as `constructor` finds a "column" in the source's plain-object index): maps hold own keys only.
- Js.Apply: assigning to the key `__proto__` creates no own property in JavaScript; it does nothing or replaces the object's prototype. So a column named `__proto__` (`out[col.name] = ...`, lib/index.ts:180), a column key `__proto__` (`Object.assign` in `toDictionary`, lib/index.ts:131) and a table named `__proto__` (lib/index.ts:257) behave differently in the source, while `Js.Apply`, `Tables.NormalizeRow` and `BaseIndex.NewBase` store an ordinary `"__proto__"` key.
- Numbers are integers: `NaN`, fractions and `-0` are not modelled in `Js.Truthy` or `Js.ToKey`.
- Js.ToKey: prints every integer in plain decimal, while JavaScript writes numbers of 10^21 and above in exponent form (`${1e21}` is `"1e+21"`) and JSON integers beyond 2^53 arrive rounded (12345678901234567890 becomes `"12345678901234567000"`); `Num` holds an unbounded integer, so option ids stringified from such numbers differ from the source's.
- Schema.Row: the entries of a source row have distinct keys; the model does not require this, and on entries that repeat a key `Tables.NormalizeRow` writes every occurrence in turn (a JSON-parsed duplicate keeps its first position with the last value).
- The enumeration order of `Object.entries` (integer-like keys first) is taken as given by the order of a row's entries.
- Tables.NormalizeRow: the record is a map, so the insertion order of its fields is not stated.
- `getBase`'s `lang` default is modelled only through `getTable`, which uses `Client.DefaultLang`.
