# Search request pipeline — Dafny model

This project models the request-handling core of `testovoe1.php`, a forum search entry point. It has three parts:

- `RequestValidator` sanitises and checks the fields `searchid`, `do` and `query`.
- `ConnectionDB` picks one of two parameterised SQL statements and the single value bound to it.
- `Search` forwards every fetched row outside forum 5 to the renderer.

Everything is pure. The request is a `map<string, Option<string>>`: an absent key is absent from the map, and `None` is PHP `null`. The connection attempt and the database are inputs: a `Connection` value, and a function from the prepared statement to the rows or the exception message. The renderer is replaced by the sequence of rows it would receive.

Modules:

- `PhpStrings` (`php_strings.dfy`): `htmlspecialchars` with PHP 8.1 default flags (ENT_QUOTES: `&` `<` `>` `"` `'` become `&amp;` `&lt;` `&gt;` `&quot;` `&#039;`), its decoding inverse, and `trim` with the default list `" \t\n\r\0\x0B"`.
- `PhpArrays` (`php_arrays.dfy`): the request array, fetched rows, and PHP `empty()`, `isset()`, reading an absent key as `null`, and `null` concatenating as `""`.
- `RequestValidator` (`request_validator.dfy`): `process_field` and `validate_fields`. The validation is written once over an arbitrary ordered rule table, then instantiated with the source's table.
- `ConnectionDb` (`connection_db.dfy`): `prepareQuery` and `executeQuery` as a `Plan` and a `Statement`, plus `handle`, both as written and corrected (see Findings).
- `Search` (`search.dfy`): `renderSearchResults` as a loop and as a reference filter, plus `doSearch`, both as written and on top of the corrected `handle`.

Behaviour of `testovoe1.php` worth noting:

- When neither `searchid` nor `q` is non-empty, the incoming `do` decides the plan. With `do=process`, the pattern is `"%" + query + "%"`, and an absent `query` gives `"%%"`. With `do=showResults`, the raw `searchid` is bound, and PDO binds NULL if it is absent. Any other `do` leaves no statement prepared. `fetchAll()` is then called on `null`, an uncaught PHP error, modelled as `Crashed`.
- The "must be a string" check of `validate_fields` can never fire with the source's rules. `required` is checked first and already rejects `null`.
- A validated request always has a non-empty `searchid`. So, through `doSearch`, only the saved-result lookup is ever reached (`Search.ValidatedRequestsSearchById`).
- A database exception during execution is not reported as a failure (see Findings).

## Model

| member | source | states |
|---|---|---|
| PhpStrings.EscapeChar | testovoe1.php:54 | each character's entity contains no markup character; a character is left as itself exactly when it is not one of the five special characters |
| PhpStrings.Escape | testovoe1.php:54 | the escaped text contains no raw `<`, `>`, `"` or `'` (the XSS promise) and is never shorter than its input |
| PhpStrings.UnescapeEscape | testovoe1.php:54 | escaping loses nothing: decoding the escaped text gives back the original |
| PhpStrings.EscapeFixedPoints | testovoe1.php:54 | escaping leaves a text unchanged if and only if it holds none of `&<>"'` |
| PhpStrings.DoubleEscapeDiffers | testovoe1.php:17-20 | escaping twice differs from escaping once whenever the text held a special character |
| PhpStrings.TrimStart | testovoe1.php:54 | the result is a suffix of the input; everything dropped is trimmable; the result does not start with a trimmable character |
| PhpStrings.TrimEnd | testovoe1.php:54 | the result is a prefix of the input; everything dropped is trimmable; the result does not end with a trimmable character |
| PhpStrings.TrimSlice | testovoe1.php:54 | `trim` returns the contiguous slice between the longest trimmable prefix and suffix, starting and ending with kept characters |
| PhpStrings.TrimIdempotent | testovoe1.php:54 | trimming a trimmed value changes nothing |
| PhpStrings.EscapePlain | testovoe1.php:54 | a text with none of `&<>"'` passes through escaping unchanged |
| PhpStrings.TrimStartEscape | testovoe1.php:54 | `ltrim` and `htmlspecialchars` commute: no entity starts with a trimmable character |
| PhpStrings.TrimEndEscape | testovoe1.php:54 | `rtrim` and `htmlspecialchars` commute: no entity ends with a trimmable character |
| PhpStrings.TrimEscapeCommute | testovoe1.php:54 | `trim(htmlspecialchars(s)) == htmlspecialchars(trim(s))` |
| PhpStrings.EscapeEmptyText | testovoe1.php:32 | escaping yields `""` or `"0"` (PHP-empty) exactly when its input was `""` or `"0"` |
| RequestValidator.ProcessField | testovoe1.php:52-58 | the result is `null` exactly when the field is absent, and a present result contains no markup character |
| RequestValidator.ProcessFieldValue | testovoe1.php:52-58 | the processed value is the escaped trimmed raw value (`null` read as `""`); PHP `empty()` holds of it exactly when the raw value is absent, `null`, or trims to `""` or `"0"` |
| RequestValidator.Sanitised | testovoe1.php:30 | the sanitised request has the original keys plus every ruled field |
| RequestValidator.ValidateSucceeds | testovoe1.php:29-48 | for any table of distinct fields, validation succeeds if and only if no rule fails on the original request |
| RequestValidator.ValidateValue | testovoe1.php:29-48 | a successful validation returns the request with each ruled field replaced by its processed value and every other key unchanged |
| RequestValidator.ValidateFailure | testovoe1.php:29-46 | validation stops at the first failing rule in table order and returns that rule's error; later rules are not consulted |
| RequestValidator.RulesDistinct | testovoe1.php:61-65 | the rule table names exactly `searchid`, `do`, `query`, each once |
| RequestValidator.SourceRulesFailures | testovoe1.php:31-32 | with the source's table, rule i fails exactly when the i-th field is blank |
| RequestValidator.SourceRulesFirstFailure | testovoe1.php:29-38 | with the source's table, the error is `нет поля <f>` for the first blank field of `searchid`, `do`, `query` |
| RequestValidator.SourceRulesOutcome | testovoe1.php:29-48 | with the source's table, validation fails naming `searchid`, `do` or `query` exactly when that is the first blank field, and succeeds exactly when none is blank |
| RequestValidator.SourceRulesSanitised | testovoe1.php:29-48 | with the source's table, success means no field was blank, and the result is the sanitised request |
| RequestValidator.SanitisedSource | testovoe1.php:30 | sanitising a request that holds the three fields adds no key, replaces the three fields and keeps every other key |
| RequestValidator.SourceRulesSuccess | testovoe1.php:39-48 | on success, the three fields hold their sanitised values, which are not `null`, `""` or `"0"` and contain no markup; other keys such as `q` are unchanged |
| RequestValidator.ValidateFields | testovoe1.php:28-65 | fails on the first blank field of `searchid`, `do`, `query` and names it (each case an if-and-only-if); never fails with the string error; on success keeps the key set, sanitises the three fields and passes every other key through |
| ConnectionDb.Prepare | testovoe1.php:116-122 | the rewrite touches only `do` and `query`; every other key is kept |
| ConnectionDb.PlanOf | testovoe1.php:116-141 | priority: a non-empty `searchid` binds exactly that value; otherwise a non-empty `q` binds `%q%`; otherwise `do=process` binds `%query%`, `do=showResults` binds the raw `searchid`, and any other `do` gives no plan (each an if-and-only-if) |
| ConnectionDb.StatementOf | testovoe1.php:124-141 | no statement is prepared exactly when no plan was chosen; the lookup SQL is prepared exactly for a lookup plan and the LIKE SQL exactly for a text plan |
| ConnectionDb.StatementKeepsPlan | testovoe1.php:124-141 | the prepared SQL and its bound value together determine the plan: reading the plan back from the statement gives the original |
| ConnectionDb.SqlIgnoresValue | testovoe1.php:124-141 | the SQL text does not depend on the bound value: any two plans of the same kind, whatever their search ids or patterns, prepare the same SQL |
| ConnectionDb.PlanReadsFourFields | testovoe1.php:116-141 | the plan depends only on `searchid`, `q`, `do` and `query` |
| ConnectionDb.SqlIsFixed | testovoe1.php:126-141 | for any two requests with plans of the same kind, the SQL text is the same constant; user text is never part of it |
| ConnectionDb.HandleAsWritten | testovoe1.php:82-149 | a refused connection fails with `Нет подключения: ` + message; with a live connection the handle never fails, crashes exactly when no statement was prepared, hands on the fetched rows when the database returns rows, and hands on the error array with the exception message when it raises |
| ConnectionDb.HandlesAgreeWithoutDatabaseError | testovoe1.php:82-149 | the code as written and the corrected handle agree whenever the connection is refused, no statement was prepared, or the database returns rows |
| ConnectionDb.Handle | testovoe1.php:82-96 | a refused connection fails with the prefixed message; no plan aborts; otherwise success if and only if the database returned rows (exactly those rows), and failure with the exception message otherwise |
| ConnectionDb.ExecutionErrorReportedAsSuccess | testovoe1.php:145-148 | a database exception gives a successful handle carrying the error array as written, and a failed handle in the corrected model |
| ConnectionDb.ExecutionErrorExample | testovoe1.php:145-148 | the same discrepancy on the concrete request `searchid=42` against a missing table |
| Search.Forwarded | testovoe1.php:176-180 | no forwarded row is in forum 5, and at most as many rows are forwarded as were fetched |
| Search.Dropped | testovoe1.php:178 | every held-back row is in forum 5 |
| Search.RenderSearchResults | testovoe1.php:173-182 | forwards exactly the rows with `forumid != 5`, each once, in input order, with their input positions as the witness; agrees with the reference filter |
| Search.ForwardedAppend | testovoe1.php:176-180 | filtering a concatenation is concatenating the filtered parts |
| Search.ForwardedIsSubsequence | testovoe1.php:176-180 | the forwarded rows are a subsequence of the fetched rows |
| Search.ForwardedPartition | testovoe1.php:176-180 | forwarded and held-back rows together are exactly the fetched rows, as a multiset |
| Search.ForwardedMembers | testovoe1.php:176-180 | a row is forwarded if and only if it was fetched and is not in forum 5 |
| Search.ForwardedIdempotent | testovoe1.php:176-180 | filtering already forwarded rows changes nothing |
| Search.DoSearch | testovoe1.php:153-170 | with the corrected `handle`: halts with the validator's message exactly when validation fails; never aborts; renders the forum-filtered rows of the lookup bound to the sanitised `searchid`; otherwise reports the connection or database message |
| Search.DoSearchAsWritten | testovoe1.php:153-170 | as written: halts with the validator's message exactly when validation fails; never aborts; echoes a message exactly when the connection is refused; on a live connection renders the forum-filtered rows when the lookup returns rows, and hands the error array with the exception message to the renderer when it raises |
| Search.DatabaseErrorNotEchoed | testovoe1.php:145-148 | for a valid request on a live connection whose lookup raises, `doSearch` as written hands the error array to the renderer while the corrected flow echoes the message |
| Search.ValidatedRequestsSearchById | testovoe1.php:156-163 | after validation, the plan is always the lookup bound to the sanitised `searchid` |

## Findings

| source | as written | input that shows it | evidently intended | confidence | as-written member | corrected member |
|---|---|---|---|---|---|---|
| testovoe1.php:145-148 | `executeQuery` catches a `PDOException` and returns `['status' => false, 'error' => ...]` as its value; `handle` (84-89) wraps it as `['status' => true, 'result' => ...]`, so `doSearch` passes the error array to the renderer instead of echoing it | live connection, request `searchid=42`, the database raises on execute (e.g. missing table) | the handle fails with the exception message, which `doSearch` echoes (the header comment promises correct display of query errors) | medium; not executed | ConnectionDb.HandleAsWritten | ConnectionDb.Handle |

## Left out

- `Logger::logSearch`: filesystem I/O (`is_writable`, `fopen`, `fwrite`, `exit`) with a hard-coded path. It has no pure logic to state, and the search flow never calls it.
- `ensureConnection`: the PDO connection and its DSN and credentials. The outcome is the `Connection` input; only the `Нет подключения: ` prefix of its message is modelled.
- The PDO `prepare`, `execute` and `fetchAll` calls: replaced by the function argument `run`, which receives the chosen statement and bound value.
- `die` and `echo` in `doSearch`: transport. They become the `Halted` and `Reported` outcomes.
- The global `$render` and the `$_REQUEST` superglobal: passed in explicitly. The renderer's calls become the returned row sequence.
- Non-string request values (PHP arrays inside `$_REQUEST`): `htmlspecialchars` throws a `TypeError` on them. The model's values are strings or `null` only.
- `htmlspecialchars`'s ENT_SUBSTITUTE handling of invalid UTF-8: the model works on characters, not bytes.
- PHP's loose comparison of `forumid` with `5`: `forumid` is an integer in the model.
- PHP warnings and deprecations ("Undefined array key", `null` passed to `htmlspecialchars`): only their resulting values are modelled.
- Search.DoSearch: models `doSearch` on top of the corrected `handle`, so a database exception is reported instead of reaching the renderer; `Search.DoSearchAsWritten` is the code as written.
- Search.DoSearchAsWritten: ends at handing the error array to `renderSearchResults`. What the loop then does with its two elements, `false` and the message string (PHP offset reads on values that are not arrays), is not modelled.
- Exceptions from `prepare` (testovoe1.php:126, 129): `prepareQuery` is called from `handle` outside any `try`, so under `ERRMODE_EXCEPTION` a failing `prepare` would escape uncaught. The model treats every database exception as raised by `execute` and caught by `executeQuery`. With pdo_mysql's default emulated prepares, preparing these two fixed statements does not contact the server and does not raise.
- RequestValidator.ValidateSucceeds, ValidateValue and ValidateFailure require a rule table whose field names are distinct. A PHP array holds each key once (a repeated key in a literal overwrites the earlier entry), and the source's table at testovoe1.php:61-65 names three different keys, so it always meets this.
