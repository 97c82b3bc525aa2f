# Customer records: repository and tool facade

A Dafny model of the customer-record layer of a small tool server. Two
layers are modelled.

- **The repository** (`db_utils.py`). It has six operations on the
  PostgreSQL table `customers`. Each operation creates a connection pool,
  runs one statement (update runs two), closes the pool in a
  `finally` block, and turns every failure into `[]`, `None` or `False`.
- **The facade** (`db_tools.py`). It holds the six tools the server exposes.
  Each tool calls the repository at most once and turns the result into the
  text the caller sees. `create_customer`, `modify_customer` and
  `find_customers_by_name` first check their arguments
  (`db_tools.py:57`, `db_tools.py:84`, `db_tools.py:120`); `get_customer` and
  `remove_customer` pass the id on unchecked, and `list_customers` takes no
  arguments.

Files:

- `values.dfy` (module `Values`): the customer record, the dict a row becomes
  (`map<string, Value>`), Python's `str()` of a field, the INTEGER bounds and
  the `Fault` a call can meet.
- `text.dfy` (module `Text`): `str()` of an integer with its inverse, lines
  joined by newlines and `split("\n")` as their inverse, prefixes and `in` on
  strings.
- `ilike.dfy` (module `ILike`): the `ILIKE` matcher. It handles `%`, `_`, the
  backslash escape and ASCII case folding. A lemma proves that `%fragment%`
  means "contains, ignoring case".
- `customer_store.dfy` (module `CustomerStore`): the table and the
  repository. Class `Store` holds these fields:
  - `rows`: the table, keyed by id;
  - `order`: the order in which a full scan returns the rows;
  - `nextId`: the SERIAL sequence;
  - `openPools`: pools that are open;
  - `connectAttempts`: calls of `get_connection_pool`.

  `Valid()` states the schema constraints. Each repository function is a
  method that opens and closes the pool, with a contract over these fields.
- `customer_tools.dfy` (module `CustomerTools`): the facade. Each message is a
  pure function of the repository's result. The `result +=` loop of the two
  listings is a method, `FormatBlocks`, with a loop invariant. Each tool is a
  method that calls the store at most once and formats the result; the
  three tools that check their arguments do so before any connection is
  attempted.
- `scenarios.dfy` (module `Scenarios`): call sequences that check the
  contracts against each other. They cover a duplicate email, update then
  read, delete then read, and every tool when no pool can be created.

How the outside world is represented:

- Pool creation and query errors are a `fault` parameter of each repository
  call: `Healthy`, `PoolUnavailable` or `QueryError`.
- The clock is the `now` parameter of `AddCustomer`. It supplies `created_at`.
- Constraint violations follow from the stored state and the arguments, not
  from `fault`:
  - a duplicate email;
  - an integer outside INTEGER (the driver refuses to send it);
  - an exhausted SERIAL sequence.

Three points where the code behaves differently from what its comments,
messages or defaults suggest; the model follows what the code does:

- Delete. The comment at `db_utils.py:133` says the result is checked for
  affected rows, and the failure message at `db_tools.py:110` says the
  customer "may not exist". The test itself is `'DELETE' in result`
  (`db_utils.py:134`), and it also passes for the tag `"DELETE 0"`
  (`CustomerStore.DeleteTagAlwaysPasses`). So `delete_customer` returns
  `True` whenever the `DELETE` ran, and `remove_customer` reports success for
  an id that does not exist. It reports failure only when the pool or the
  query failed.
- `'N/A'`. The field lines use `customer.get(key, 'N/A')`
  (`db_tools.py:19-22`). A row from the repository has every column as a
  key, so `'N/A'` is never printed for it; a NULL age or prefer_package prints
  as `None` (`CustomerTools.RepositoryRowsNeverShowDefault`).
- SERIAL gaps. The id is `SERIAL` (`create_tables.py:14`). An insert that
  fails on a duplicate email still uses up a sequence value, so ids can have
  gaps, as in PostgreSQL.

## Model

| member | source | states |
|---|---|---|
| `CustomerStore.Store.constructor` | create_tables.py:13-20 | an empty `customers` table whose SERIAL sequence starts at 1; no pool open |
| `CustomerStore.TableInvariant` | create_tables.py:13-20 | the schema's constraints on the stored state: every id is its row's key, positive and below the SERIAL sequence; emails are unique; age and prefer_package fit INTEGER; the scan order lists every stored id exactly once |
| `CustomerStore.Store.Valid` | create_tables.py:13-20 | the store's rows, scan order and sequence satisfy the table constraints above; every repository method keeps it |
| `CustomerStore.Store.OpenPool` | db_utils.py:14-21 | one connection attempt per call; the pool opens unless the store is unavailable; on failure nothing is left open |
| `CustomerStore.Store.ClosePool` | db_utils.py:38-39 | `pool.close()` releases exactly the one pool the operation opened |
| `CustomerStore.Store.GetCustomers` | db_utils.py:23-39 | every stored row as a dict, in scan order, or `[]` on pool or query failure; the table is untouched; the pool count returns to what it was |
| `CustomerStore.ScanListsEveryRecordOnce` | db_utils.py:31-33 | a full scan returns exactly the stored records, each once, and every record it returns is filed under its own id |
| `CustomerStore.RowsOf` | db_utils.py:33 | `[dict(row) for row in rows]` gives one dict per fetched row, in the same order, each with every column as a key and the row's own id |
| `CustomerStore.Store.GetCustomerById` | db_utils.py:41-55 | the row whose id equals the argument, or `None` when there is none, the id does not fit INTEGER, or the call fails; the table is untouched; the pool is closed again |
| `CustomerStore.Store.GetCustomerByName` | db_utils.py:57-73 | the rows whose name matches `%name%` under ILIKE, in scan order, or `[]` on failure; the table is untouched; the pool is closed again |
| `CustomerStore.Matching` | db_utils.py:66-67 | a customer is returned by the name search if and only if it is in the scan and its name matches the pattern |
| `ILike.Like` | db_utils.py:66 | `s ILIKE p` with the default escape: `%` matches any run of characters, `_` one character, a backslash makes the next character literal, and letters compare ignoring ASCII case |
| `ILike.Pattern` | db_utils.py:66 | the search pattern `f"%{name}%"` is the name with one `%` before and one after |
| `CustomerStore.MatchingKeepsOrder` | db_utils.py:66-67 | the search keeps scan order: the matches of a longer scan are the matches of its first part followed by those of the rest |
| `CustomerStore.SearchIsSubstring` | db_utils.py:65-66 | for a fragment without `%`, `_` or backslash, the search returns exactly the customers whose name contains the fragment, ignoring ASCII case |
| `ILike.PatternMeansSubstring` | db_utils.py:66 | `name ILIKE '%f%'` holds if and only if `f` occurs in `name` ignoring case, for every name and every metacharacter-free `f` |
| `ILike.LiteralThenPercent` | db_utils.py:66 | a literal fragment followed by `%` matches exactly the strings that begin with it, ignoring case |
| `ILike.PercentMatchesAll` | db_utils.py:66 | the trailing `%` of the pattern matches any rest of the name |
| `ILike.FindsAnnSmith` | db_utils.py:66 | the search for "ann" finds "Ann Smith" |
| `ILike.FindsHannah` | db_utils.py:66 | the search for "ann" finds "Hannah", where the fragment starts one character in |
| `ILike.FindsAnnabelle` | db_utils.py:66 | the search for "ann" finds "annabelle" |
| `ILike.SkipsBob` | db_utils.py:66 | the search for "ann" does not find "Bob" |
| `CustomerStore.Store.AddCustomer` | db_utils.py:75-92 | on success exactly one record is added, under the next SERIAL id (not used before), with the given name, email, age, prefer_package and created_at, and its dict is returned; a duplicate email, an integer outside INTEGER, an exhausted sequence or a failure returns `None` and leaves the rows as they were; the sequence advances whenever the INSERT reached the constraint check; the pool is closed on every path |
| `CustomerStore.InsertKeepsInvariant` | create_tables.py:14-16 | inserting a record under the next id with a free email keeps ids unique and below the sequence, emails unique, and the scan order listing each id once |
| `CustomerStore.Store.UpdateCustomer` | db_utils.py:94-122 | when the call succeeds and the id is present, the row becomes the merge of the supplied fields over the current ones and is returned, and no other row changes; an absent id, a pool or query failure, an integer that does not fit, or a merged email that belongs to another customer returns `None` and writes nothing; the scan order and the sequence never change |
| `CustomerStore.Merge` | db_utils.py:107-111 | each of name, email, age and prefer_package becomes the supplied value if one is supplied and keeps its current value otherwise; id and created_at never change |
| `CustomerStore.MergeIdempotent` | db_utils.py:107-111 | applying the same update twice gives the same row as applying it once |
| `CustomerStore.MergeNothing` | db_utils.py:107-111 | an update that supplies no field rewrites the row unchanged |
| `CustomerStore.UpdateKeepsInvariant` | create_tables.py:14-16 | an accepted update keeps every table constraint |
| `CustomerStore.Store.DeleteCustomer` | db_utils.py:124-139 | the result is `True` exactly when the DELETE ran (whether or not a row matched) and `False` only on pool or query failure or an id outside INTEGER; when it ran, the row with that id and its place in the scan order are gone and nothing else changes; when it did not, nothing changes |
| `CustomerStore.DeleteTagAlwaysPasses` | db_utils.py:132-134 | the check `'DELETE' in result` holds for the command tag of every DELETE, `"DELETE 0"` included |
| `CustomerStore.DeleteTag` | db_utils.py:132-134 | the command tag of a DELETE is `"DELETE "` followed by the number of rows removed, which reads back from the tag |
| `CustomerStore.Without` | db_utils.py:132 | after the DELETE the scan meets every id it met before except the deleted one, and still meets each once |
| `CustomerStore.DeleteKeepsInvariant` | create_tables.py:14-16 | a DELETE keeps every table constraint |
| `Values.AsRow` | db_utils.py:33 | `dict(row)` of a fetched row has a key for every column of the table, NULL columns included |
| `Values.Show` | db_tools.py:18-22 | `str()` of a field value in an f-string: an integer's decimal digits, the text itself, the timestamp's text, and `None` for NULL |
| `CustomerTools.Get` | db_tools.py:18-22 | `customer.get(key, default)`: the printed value when the key is present, the default otherwise |
| `Text.NatToString` | db_tools.py:128 | `str()` of a count is a non-empty run of decimal digits |
| `Text.ParseNatToString` | db_tools.py:128 | the digits `str()` writes for a count read back as that count |
| `Text.IntToStringRoundTrip` | db_tools.py:37 | the id printed in a message reads back as the id, so different ids never print the same |
| `Text.ContainsInfix` | db_tools.py:37 | a message built around a value contains that value (the `in` used for echoes) |
| `Text.SplitLines` | db_tools.py:39-46 | a multi-line message splits back into exactly the lines it was written from |
| `CustomerTools.FieldLines` | db_tools.py:41-45 | every record block lists its fields in the fixed order ID, Name, Email, Age, Prefer Package, one per line |
| `CustomerTools.RepositoryRowsNeverShowDefault` | db_tools.py:41-45 | for a row the repository returned, the fields print as stored; a NULL age or prefer_package prints as `None`, never as the `'N/A'` default |
| `CustomerTools.BlockLines` | db_tools.py:17-24 | a listing block is a blank line, the five fields and `---` |
| `CustomerTools.BlockLinesPrintable` | db_tools.py:17-24 | when no value of the row contains a newline, no line of its block does, so each block line is one printed line |
| `CustomerTools.ListedLinesLength` | db_tools.py:16-24 | the listing holds exactly seven lines per customer |
| `CustomerTools.ListedLinesAt` | db_tools.py:16-24 | the listed lines hold exactly seven lines per customer, and line `7i+k` is line `k` of the i-th customer's block: one block per customer, in repository order |
| `CustomerTools.ListingReadsBack` | db_tools.py:15-24 | a listing splits into its heading followed, for each customer in order, by the seven lines of its block, and nothing else |
| `CustomerTools.FormatBlocks` | db_tools.py:15-24 | the `result +=` loop produces the heading line followed by one block per customer, in the order given |
| `CustomerTools.ListingText` | db_tools.py:12-26 | the list is empty if and only if the answer is "No customers found in the database."; otherwise it starts with "Customers:" on its own line |
| `CustomerTools.ListCustomers` | db_tools.py:4-26 | one repository call; the answer is the listing of the whole table in scan order, or the empty-table sentence when the call failed |
| `CustomerTools.CustomerText` | db_tools.py:36-46 | a falsy repository result gives the not-found sentence, which contains the id; the answer starts "No customer found" if and only if the result was falsy |
| `CustomerTools.Falsy` | db_tools.py:36 | `not customer` for what the repository returns: `None` or a dict without keys |
| `CustomerTools.GetCustomer` | db_tools.py:28-46 | one repository call, the table only read; the answer describes the stored record with that id, or is the not-found sentence |
| `CustomerTools.CreatedText` | db_tools.py:62-72 | the answer is the fixed connection-failure sentence if and only if the repository's result was falsy |
| `CustomerTools.CreateCustomer` | db_tools.py:48-72 | an empty name or email returns "Error: Customer name and email are required." with no connection attempted and the store unchanged; otherwise exactly one insert, whose outcome the answer reports; an accepted record is stored under the next id and appended to the scan order, a refused one changes neither rows nor order, and the sequence advances exactly as the INSERT does |
| `CustomerTools.EmptyOrZeroCountsAsAbsent` | db_tools.py:84-85 | an update whose every field is `None`, `""` or `0` counts as supplying no field |
| `CustomerTools.AnyFieldGiven` | db_tools.py:84 | `any([name, email, age, prefer_package])`: some field is a non-empty string or a non-zero number |
| `CustomerTools.UpdatedText` | db_tools.py:89-99 | a falsy repository result gives the failure sentence, which contains the id; the answer starts "Failed to update" if and only if the result was falsy |
| `CustomerTools.ModifyCustomer` | db_tools.py:74-99 | when name, email, age and prefer_package are all falsy, the "At least one field" error with no connection attempted and the store unchanged; otherwise the fields, `""` and `0` included, go to one update, whose outcome the answer reports; only the updated row changes, and the scan order and the sequence never do |
| `CustomerTools.RemovalText` | db_tools.py:107-112 | both answers contain the id; the answer is the success sentence if and only if `delete_customer` returned `True` |
| `CustomerTools.RemoveCustomer` | db_tools.py:101-112 | one delete; the answer reports success whenever the store was reachable and the id fits INTEGER, also for an id that was not there; on success the row and its place in the scan order are gone, on pool or query failure (or an id outside INTEGER) rows and order are as they were; the sequence never changes |
| `CustomerTools.MatchesText` | db_tools.py:125-139 | both answers contain the searched name; no matches gives the "No customers found" sentence; otherwise the answer starts with "Found", the number of matches and "customer(s)"; it starts "Found " if and only if there were matches |
| `CustomerTools.MatchListing` | db_tools.py:128-139 | the listing of the matches starts with "Found", the number of matches and "customer(s)", and contains the searched name |
| `CustomerTools.FindCustomersByName` | db_tools.py:114-139 | an empty name returns the "name is required" error without a connection attempt; otherwise one search, whose matches in scan order are what the answer lists |

## Left out

- asyncpg, the network and the SQL engine are not modelled. The table is the
  `Store` object, and each statement is the effect PostgreSQL gives it.
- A `QueryError` is modelled as failing before the statement takes effect, so
  every `None` or `False` from a write comes with nothing written. In the
  program a failure after PostgreSQL has applied the INSERT, UPDATE or DELETE
  (the connection dropping before the reply, say) also returns `None` or
  `False`, with the write done; the model does not capture that case.
- Failures are the `fault` parameter. The diagnostic text of an error and the
  `logging` calls are not modelled.
- async/await and concurrent calls are not modelled. Each tool call runs to
  completion before the next one starts, so races between calls
  (last-write-wins) and cancellation are not covered.
- `create_database.py`, `create_tables.py`, `server.py` and `weather.py` are
  not modelled. They are bootstrap scripts and registration glue. Only the
  schema constraints of `create_tables.py` are kept, as `TableInvariant`.
- The weather tools are not modelled. `tools.py` is not part of this model,
  and the forecast works on floating-point coordinates.
- `textwrap.dedent` is modelled only for values without newlines. A name or
  email containing a newline would change dedent's common margin, and the
  model does not capture that.
- `ILike.Lower`: case folding covers ASCII letters only. PostgreSQL's `lower()`
  under a UTF-8 locale also folds other letters.
- A NUL character in a text argument is not modelled. PostgreSQL refuses it
  with a query error.
- `CustomerStore.Store.GetCustomers`: a SELECT without ORDER BY returns rows in
  an order PostgreSQL does not promise. The model fixes one order: insertion
  order, where an updated row keeps its place.
- `created_at` is kept only as its printed form. The facade never prints it.
- The name and email of `create_customer` are `string`, never missing. The
  server's argument schema already rejects a missing or null `str` argument
  before the tool runs.
