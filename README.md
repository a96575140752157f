# users-report, modelled in Dafny

`users-report.php` collects the user accounts of a list of WordPress sites
into one CSV report. It reads a site table (url, platform, staging endpoint)
and an optional credential table (key, username, password). For each site it
takes the credential key `platform ?: url` and looks the key up in the
credential table. A missing key is asked for at the terminal and remembered
for the rest of the run. The script then pages through `wp.getUsers` over
XML-RPC on the endpoint `staging ?: url`, and emits one row
`(url, email, implode(',', roles))` per account with a truthy email. An
exception while loading the tables or in the site loop (lines 90-187) aborts
the run: `$status` becomes 1 and no output file is written. An empty row set
prints "No sites found", writes no file and still sets `$status` to 0.

The model follows the script as written. The state it changes step by step
(`$users`, `$credentials`, `$sites`, `$offset`) is held in local variables of
methods with `while` loops. The pure parts (`?:`, `implode`, truthiness) are
functions. Each method is proved against a specification function.

- `wrappers.dfy`: `Option` and `Result`.
- `php.dfy`: null-or-string values, PHP truthiness (`null`, `""`, `"0"` are falsy), `?:`, `implode`, and `explode` as its inverse.
- `fetcher.dfy`: `get_users`. The HTTP/XML-RPC round trip is an oracle `Remote` from (URL, request) to `Unreachable | Undecodable | Fault | Page(accounts)`. `GetUsers` is the `do … while` loop. `Fetch` is its specification. `Collected` is the array-union accumulation.
- `loader.dfy`: the filters applied to already-parsed CSV rows of the site table and the credential table.
- `report.dfy`: the site loop. Prompting is an oracle `Answers`: the n-th prompt of the run gets `answers(n)`, and every prompt is recorded in `asked`. The file also holds the run outcome and the whole script (`Run`). Messages are a log of `Message` values.

Line 55 accumulates the pages with PHP's array union `+=`. Union keeps every
index already present and adds only indices past the current end. Pagination
goes on only after a full 100-entry page, so a later page adds entries only
when it is longer than 100. With pages of 100, 100 and 37
accounts the script issues three requests and returns the first 100 accounts;
`Fetcher.FetchThreePages` proves this case.

## Model

| member | source | states |
|---|---|---|
| `Fetcher.GetUsers` | users-report.php:5-59 | request i has offset 100·i, number 100 and the site's credentials; another request follows exactly when the last page had exactly 100 entries, so the number of requests is 1 + the number of leading full pages; the result is an error exactly when the last response is not a page (unreachable, undecodable, fault), otherwise the union accumulation of the pages; it equals `Fetch` |
| `Fetcher.Union` | users-report.php:55 | PHP `+=` on lists: the result is as long as the longer operand, keeps every index of the left operand and takes only the indices beyond its end from the right |
| `Fetcher.CollectedEarliest` | users-report.php:8-56 | index i of the accumulated users is the entry at index i of the earliest page that has an index i |
| `Fetcher.CollectedCovers` | users-report.php:55 | the accumulated list is at least as long as every page fetched |
| `Fetcher.CollectedBounded` | users-report.php:55 | the accumulated list is no longer than the longest page, so no index is duplicated |
| `Fetcher.CollectedFullPages` | users-report.php:48-56 | after a run of full pages, the accumulation is the first page extended only by the tail of the last page beyond index 100 |
| `Fetcher.FetchKeepsFirstPage` | users-report.php:48-56 | whenever a second request was made and the last page has at most 100 entries, `get_users` returns exactly the first page |
| `Fetcher.FetchThreePages` | users-report.php:6-56 | pages of 100, 100 and fewer than 100 entries: the loop stops at the third request and returns the first 100 accounts |
| `Fetcher.StopRound` | users-report.php:48-53 | the round that ends pagination is the first whose response is not a full page |
| `Php.OrNull` | users-report.php:100-102 | `v ?: null` keeps a truthy value unchanged and turns a falsy one (`null`, `""`, `"0"`) into null |
| `Php.ExplodeImplode` | users-report.php:183 | the comma-joined roles column splits back into the role list when the list is non-empty and no role contains a comma |
| `Loader.LoadSites` | users-report.php:99-111 | the site loop yields exactly `SitesOf(rows)`: one site per row with a truthy url, in row order |
| `Loader.SitesOfAppend` | users-report.php:99-111 | loading is row by row: the sites of concatenated rows are the concatenation of their sites |
| `Loader.SitesOfMembership` | users-report.php:104-110 | a site is loaded if and only if some row with a truthy url produces it |
| `Loader.SitesOfLoaded` | users-report.php:100-110 | every loaded site has a truthy url, and its platform and staging columns are null or truthy |
| `Loader.LoadCredentials` | users-report.php:135-146 | the credential loop yields exactly `CredentialsOf(rows)` |
| `Loader.CredentialsOfKeys` | users-report.php:136-145 | the table has an entry for a key if and only if some row carries that key, truthy; rows with a falsy key are dropped |
| `Loader.CredentialsOfLastWins` | users-report.php:140-145 | on duplicate keys the pair from the last row with that key is stored |
| `Report.Rows` | users-report.php:176-186 | no more rows than accounts; every row carries the site url and a truthy email |
| `Report.RowsMembership` | users-report.php:176-186 | a row is emitted if and only if some account has a truthy email, and the row is (site url, that email, roles joined by ",") |
| `Report.RowsAppend` | users-report.php:176-186 | rows follow fetch order: the rows of concatenated account lists are the concatenation of their rows |
| `Report.AppendRows` | users-report.php:176-186 | the account loop appends exactly `Rows(url, accounts)` after the rows already collected, leaving those untouched |
| `Report.Resolve` | users-report.php:160-170 | a stored key gives its stored pair, asks nothing and leaves the table alone; a missing key asks for username then password, stores exactly that pair under the key, and leaves every other entry as it was |
| `Report.ResolveAgain` | users-report.php:160-170 | resolving the same key again asks nothing and gives the same pair |
| `Report.VisitSite` | users-report.php:154-186 | one loop iteration computes exactly `Visit`: message, credential lookup or prompt, fetch, rows |
| `Report.VisitResolution` | users-report.php:158-186 | the key is the platform when truthy, else the url; the fetch goes to the staging endpoint when truthy, else the url; rows added carry the site url, never the endpoint; a failing fetch adds no row |
| `Report.ProcessSites` | users-report.php:153-187 | the site loop computes exactly `VisitAll`: sites in order, leaving at the first exception |
| `Report.VisitAllSplit` | users-report.php:153-187 | the loop terminates on a list of sites exactly when it terminates on its prefix and then on its suffix from the state the prefix left, and then processing the list is processing the prefix, then the suffix |
| `Report.VisitAllStopsAtFailure` | users-report.php:153-219 | when the i-th site's fetch throws, nothing after it is visited, the returned `$status` is 1 and no rows reach the output |
| `Report.VisitAllRows` | users-report.php:153-187 | rows collected before are never changed, and every row added carries the url of one of the sites |
| `Report.VisitPromptsOnce` | users-report.php:160-170 | one site keeps the invariant: stored pairs stay, each key prompted for was missing from the loaded table and is prompted for only once |
| `Report.VisitAllPromptsOnce` | users-report.php:153-170 | across the whole loop each credential key is prompted for at most once and only when the table lacked it; later sites with the same key reuse the stored pair |
| `Report.Outcome` | users-report.php:189-222 | the returned `$status` is 1 exactly when a site failed; output only when no site failed and there are rows, and then all rows in accumulation order; zero rows gives no output, "No sites found" and `$status` 0 |
| `Report.FirstUrlAnswer` | users-report.php:117-119 | the URL prompt is answered by the first truthy answer |
| `Report.AskSiteUrl` | users-report.php:117-123 | the prompt is repeated until the answer is truthy; the url returned is the first truthy answer, and one SiteUrl prompt is recorded per question asked |
| `Report.Run` | users-report.php:80-222 | the script's result is `Outcome` of the site loop. The loop runs over the loaded site table (or the one typed-in site) and starts from the loaded credential table (or an empty one) |

## Left out

- HTTP and XML-RPC: request encoding, the POST, `xmlrpc_decode` and `xmlrpc_is_fault` are replaced by the `Remote` oracle. A decoded value other than a list of accounts is not modelled: a struct would be counted at line 48 and merged by its keys at line 55, and a scalar makes `xmlrpc_is_fault` at line 44 throw a `TypeError` under PHP 8.
- CSV files: `fopen`, `fgetcsv`, `fputcsv` and `fclose` are replaced by already-parsed rows (`files`) and the row list handed to the output (`RunResult.output`). The exceptions for a file that cannot be opened or written (lines 95-97, 131-133, 198-205) are not modelled.
- The `--*-format` switches only handle `csv`. Any other format silently loads or writes nothing. This configuration is not modelled.
- `parse_arguments`, `set_time_limit`, password masking and the terminal itself (`inc/cli.php` is not part of this model). The exception message texts are reduced to the `FetchError` kind and endpoint.
- `Fetcher.GetUsers`: requires that some round's response is not a full page. Against a remote that returns full pages forever, the script loops forever.
- `Report.AskSiteUrl`: requires that some answer is truthy. Otherwise the script keeps prompting forever.
- `Report.VisitSite`: requires `VisitHalts`, that the site's endpoint, asked with the login the site resolves to, eventually returns a page that is not full, for the same reason as `Fetcher.GetUsers`.
- `Report.ProcessSites`: requires `SitesHalt`, that `VisitHalts` holds for every site the loop reaches with the state it reaches it in. Sites after a failing one are never contacted and are unconstrained.
- `Report.Run`: requires `SitesHalt` for the loaded sites from the initial state and, without an input file, a truthy answer to the URL prompt.
- The output file: `fopen($output_file, 'w')` at line 196 truncates the file before any row is written, and a `fputcsv` failure at lines 203-204 leaves a partial file. The model hands all rows to the output at once.
- `new Exception($message, $output_file)` at lines 199 and 204 passes a string as the integer `$code`. PHP then throws a `TypeError`, which `catch (Exception $e)` at line 216 does not catch, so `$status` is never set. These paths are not modelled.
- The process exit code: the top-level `return $status;` at line 222 does not set it, and the model records only the returned `$status`.
- PHP turns integer-like string keys (`"12"`) into integer keys. That mapping is one-to-one, so a `map<string, _>` behaves the same way for lookups and inserts.
