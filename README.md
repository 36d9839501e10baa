# bera-db `Db` query assembly, in Dafny

This project models the part of the `Db` class (`src/Db.php`) that does its own work, as opposed to passing calls through to PHP's `mysqli` extension:

- the SQL text that `insert`, `update` and `delete` build, and the positional parameter list each passes to `query`. It covers the `?` placeholders, the backtick-quoted columns, the `rtrim` that removes the last separator, and the literal `1` used when there are no conditions;
- the bind-type string `query` computes: one of `i`, `d`, `s` or `b` per parameter;
- the statement state that `query` overwrites and `getNumRows` reads.

Modules:

- `PhpText` (`php_text.dfy`): the PHP primitives the builders rely on. `RTrim` is PHP `rtrim` with a character list: it strips trailing characters in the set, not a suffix. It also holds `Implode`, the text a loop builds by appending piece-then-separator (`Terminated`), and a character count. The lemmas here show that trimming the separator characters off `Terminated` gives back `Implode`.
- `Params` (`params.dfy`): PHP values (`Int | Double | Str | Other`) and associative arrays. An array is an ordered sequence of column/value pairs, so insertion order is kept. The module also holds `array_keys` and `array_values`, the tag of one value, and the tag loop of `query`.
- `SqlText` (`sql_text.dfy`): the clause functions exactly as the source computes them (`rtrim` of the text the loops accumulate). The loops themselves are methods proved equal to those functions. The lemmas state what the text is: implode-joins, one `?` per bound value, and parameters in map order.
- `DbSession` (`db_session.dfy`): the fields `$sql`, `$stmt` and `$query_result` as a `Session`, and `Run`, the effect of one `query` call. It also holds the class `Db`, whose methods `Query`, `Insert`, `Update`, `Delete`, `DeleteUsingAnd`, `DeleteUsingOr` and `GetNumRows` are proved against `Run` and `NumRows`.

The driver's part of a call is an input to the model:

- `Preparation` says whether `prepare` returned a statement, returned `false` or threw.
- `Execution` says whether `execute` succeeded (with or without a result set from `get_result`), returned `false` or threw, and gives the affected-row count the driver then reports.

Details of the text and return values that the model reproduces:

- `insert` returns the instance and has no empty-map check. An empty map gives ``( `` )`` and `VALUES(  )`.
- The insert text reads `` INSERT INTO t ( `a`,`b` )  VALUES( ?, ? ) ``, with two spaces before `VALUES`. Comparisons and assignments read `` `a` = ? ``.
- Conditions are joined by a space and the glue, with no space after the glue: `` `a` = ? AND`b` = ? ``.

`getNumRows` tests `$stmt == null`. In PHP `false == null` holds, so a `prepare` that returned `false` makes `getNumRows` report 0. A `prepare` that threw (strict mode) leaves `$stmt` as it was, so `getNumRows` keeps reporting the previous statement's count. In strict mode an `execute` failure throws a `mysqli_sql_exception`. `query` does not catch it, so it is not wrapped in `DbErrorException`. The model keeps all three behaviours.

## Model

| member | source | states |
|---|---|---|
| `PhpText.RTrim` | src/Db.php:152 | `rtrim($s, $chars)`: the result is a prefix of the input, it is empty or ends in a character outside the list, and every removed character is in the list (this determines it uniquely) |
| `PhpText.TrimTerminated` | src/Db.php:149-152 | trimming the separator's characters off "each piece followed by the separator" gives the pieces imploded with that separator, whenever the last piece ends outside the character list |
| `Params.BindTag` | src/Db.php:266-274 | the tag is one of `idsb`; it is `i` exactly for ints, `d` exactly for doubles, `s` exactly for strings, and `b` for everything else |
| `Params.TypeTags` | src/Db.php:263-277 | the type string has one character per parameter, and the k-th character is the tag of the k-th parameter |
| `Params.TypeString` | src/Db.php:264-275 | the loop appending one tag per parameter produces exactly the type string |
| `SqlText.BuildPlaceholders` | src/Db.php:148-152 | the `for` loop appending `?, ` per value, followed by `rtrim($s, ', ')`, yields the placeholder list |
| `SqlText.BuildSetClause` | src/Db.php:169-175 | the `foreach` over the data followed by `rtrim($s, ',')` yields the SET list, and empty data yields empty text |
| `SqlText.BuildWhereClause` | src/Db.php:177-186 | the `foreach` over the conditions followed by `rtrim($s, " $glue")` yields the WHERE condition, and no conditions yield `1` |
| `SqlText.BuildInsert` | src/Db.php:146-153 | `insert` assembles the statement and the parameter list `InsertQuery` describes |
| `SqlText.BuildUpdate` | src/Db.php:169-190 | `update` assembles the statement and the parameter list `UpdateQuery` describes |
| `SqlText.BuildDelete` | src/Db.php:203-216 | `delete` assembles the statement and the parameter list `DeleteQuery` describes |
| `SqlText.PlaceholdersJoined` | src/Db.php:148-152 | the VALUES list is exactly `n` question marks joined by `, `, with no trailing comma or space, and it holds exactly `n` `?` |
| `SqlText.SetClauseJoined` | src/Db.php:169-175 | the SET list is one `` `col` = ? `` per data entry in data order, joined by `,` with no trailing comma; empty data gives empty text |
| `SqlText.WhereClauseJoined` | src/Db.php:177-183 | for a non-empty condition map and a glue without `?`, the WHERE condition is one `` `key` = ? `` per condition in order, joined by a space and the glue, ending in the last `?` (no trailing glue) |
| `SqlText.WhereClausePlaceholders` | src/Db.php:177-186 | the WHERE condition holds exactly one `?` per condition, and none for the literal `1` |
| `SqlText.InsertBindsEveryValue` | src/Db.php:146-155 | with no `?` in the table or column names, the insert statement holds exactly as many `?` as parameters, one per data entry |
| `SqlText.UpdateBindsEveryValue` | src/Db.php:167-190 | with no `?` in table, column names or glue, the update statement holds exactly as many `?` as parameters, one per data entry plus one per condition |
| `SqlText.DeleteBindsEveryValue` | src/Db.php:201-216 | with no `?` in table, keys or glue, the delete statement holds exactly as many `?` as parameters, one per condition |
| `SqlText.UpdateBindsInOrder` | src/Db.php:190 | update's parameters are the data values in data order followed by the condition values in condition order |
| `SqlText.EmptyConditionsMatchAll` | src/Db.php:184-188 | with no conditions, update and delete use the condition `1` (every row), and delete binds no parameters |
| `SqlText.WhereGlueWithoutTrailingSpace` | src/Db.php:180 | two conditions with glue `AND` give `` `a` = ? AND`b` = ? ``: no space follows the glue |
| `SqlText.InsertExample` | src/Db.php:146-153 | inserting `name` and `age` gives `` INSERT INTO users ( `name`,`age` )  VALUES( ?, ? ) `` with the values in that order |
| `SqlText.UpdateExample` | src/Db.php:169-190 | updating `age` where `name` matches gives `` UPDATE users SET `age` = ? WHERE `name` = ? `` with the new age then the name |
| `DbSession.NoRowsWithoutStatement` | src/Db.php:295-297 | `getNumRows` is 0 while there is no statement |
| `DbSession.NumRowsAfterQuery` | src/Db.php:253-299 | after a query, the row count is the new statement's count if it was prepared, 0 if `prepare` returned `false`, and the previous count if `prepare` threw |
| `DbSession.ReturnsOnlyWhenExecuted` | src/Db.php:254-285 | a query returns normally if and only if the statement was prepared and executed; every other path raises |
| `DbSession.SqlRecordedResultReplacedOnSuccess` | src/Db.php:253-282 | the SQL is recorded on every path, and the result set is replaced only by a successful execution |
| `DbSession.BindsOneTagPerParameter` | src/Db.php:263-278 | a prepared statement is bound if and only if there are parameters, with the parameters themselves and one type character per parameter, in order |
| `DbSession.Db.constructor` | src/Db.php:53-63 | a new instance has no SQL, no statement and no result set |
| `DbSession.Db.Query` | src/Db.php:251-286 | the new fields and the outcome are those `Run` gives for the old fields |
| `DbSession.Db.Insert` | src/Db.php:144-156 | runs `InsertQuery`'s statement and parameters through `query` |
| `DbSession.Db.Update` | src/Db.php:167-191 | runs `UpdateQuery`'s statement and parameters through `query` |
| `DbSession.Db.Delete` | src/Db.php:201-217 | runs `DeleteQuery`'s statement and parameters through `query` |
| `DbSession.Db.DeleteUsingAnd` | src/Db.php:225-228 | has exactly the effect of `delete` with glue `AND` |
| `DbSession.Db.DeleteUsingOr` | src/Db.php:236-239 | has exactly the effect of `delete` with glue `OR` |
| `DbSession.Db.GetNumRows` | src/Db.php:293-300 | returns 0 while there is no statement, and otherwise the statement's affected-row count |

## Left out

- The constructor's connection setup, `setDebugMode`, the driver report mode and the `mysqli` extension check (src/Db.php:78-134) are calls into the driver. The model starts from a connected instance. The reporting mode shows up only as which way `prepare` and `execute` fail.
- The driver's `prepare`, `bind_param`, `execute`, `get_result` and `affected_rows` are inputs to the model (`Preparation`, `Execution`), not modelled behaviour. In particular, a `bind_param` failure, such as a placeholder count that differs from the parameter count in a hand-written `query`, is not modelled.
- `one`, `oneAsObject` and `all` (src/Db.php:307-336) pass straight through to the driver's result set. They are not modelled.
- `start_transaction` and `end_transaction` (src/Db.php:341-360) are driver calls (begin, commit, rollback) with nothing to prove beyond their order. They are not modelled.
- DbSession.Db.DeleteUsingAnd: return values are not modelled. `deleteUsingAnd` has no `return`, so it returns null where `delete` returns the instance, and a chained call on its result fails. `Outcome.Returned` does not tell the two apart.
- DbSession.Db.DeleteUsingOr: likewise returns null in PHP (no `return`); return values are not modelled, so a chained call failing on it is not captured.
- Default argument values (`$data = []`, `$glue = 'AND'`) are not modelled: every argument is passed explicitly.
- Column names are strings. PHP integer array keys, which would be printed in decimal, are not modelled.
- A double is only a payload (`real`) that receives the tag `d`. No floating-point behaviour is involved.
- `SqlText.WhereClause`: PHP `rtrim` reads `a..b` in its character list as a range. The model reads the list literally. This agrees with PHP for every glue that does not contain `..`, including `AND` and `OR`.
- `SqlText.WhereClauseJoined`: the join property is stated only for glues without `?`. With a `?` in the glue, `rtrim` would also strip the last comparison's `?`. No such glue is used by the code.
- Table names, column names and the glue are put into the SQL as they are, with no validation or escaping. The placeholder-count lemmas therefore assume that these strings contain no `?`.
