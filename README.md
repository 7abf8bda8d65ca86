# fetch-repo-list in Dafny

A Dafny model of `main.py` from fetch-repo-list. The script lists the viewer's repositories through a
GraphQL API that is paginated by cursor. It keeps the repositories that were generated from a given
template repository and that were pushed within the last `--last_active` days, and writes their names out.

The model has one module per part of the script:

- `Wrappers` (`wrappers.dfy`): `Option`, standing for Python's `None` versus a value.
- `GraphQuery` (`graph_query.dfy`): `generate_query` models the exact query text. `ParseQuery` is its
  inverse and reads the page size and the `after` cursor back out of a query. A cursor becomes a clause
  only when Python treats it as truthy, so neither `None` nor `""` adds one.
- `Repos` (`repos.dfy`): the `Repo` record built from an API node, and `repo_filters`. Instants are
  integer microseconds on the UTC scale of `pushedAt`, and the current instant `now` is a parameter.
- `RepoServer` (`repo_server.dfy`): stands in for `client.execute`. A `Server` holds the viewer's edges,
  and each edge has a cursor. It answers a query text with up to `first` edges after the edge whose
  cursor the query carries, or from the start when the query carries none. `WellFormed` states what the
  platform guarantees: cursors are non-empty and distinct.
- `Pagination` (`pagination.dfy`): the `while True` loop of `main`, as the method `FetchAll`. Its
  specification is `Chunks`: full pages of 100 edges followed by one shorter page. The loop's ghost
  outputs record the cursor each query was built from and the page each query returned.
- `Selection` (`selection.dfy`): the projection `[x.name for x in filter(repo_filter, results)]`.
- `FetchRepoList` (`fetch_repo_list.dfy`): `main` from the first fetch to the list of names.

## Model

| member | source | states |
|---|---|---|
| `GraphQuery.GenerateQuery` | main.py:33-44 | the query text always asks for `first: 100`, and it carries `after: "<cursor>"` exactly when the cursor is truthy; reading the text back gives `Request(100, Truthy(cursor))` |
| `GraphQuery.GenerateQuerySameIff` | main.py:35-38 | two cursors give the same query iff Python treats them alike: `None` and `""` both give the query without a cursor clause, and distinct non-empty cursors give distinct queries |
| `Repos.FromNode` | main.py:10-17 | the record takes the node's name and push time; its template is present exactly when `templateRepository` is present, and it is then that repository's `nameWithOwner` |
| `Repos.RepoFilterIff` | main.py:61-67 | a repo is kept iff its template equals `template_name` and it was pushed no more than `last_n_day` days before now |
| `Repos.RecencyBoundary` | main.py:65-66 | the window is inclusive: a matching repo pushed exactly `last_n_day` days ago is kept; one pushed a microsecond earlier, or a whole day earlier, is dropped |
| `Repos.NoTemplateNeverKept` | main.py:13-17 | a node without a template repository gets no template and is rejected for every template name, window and clock reading |
| `Repos.RepoFilterMonotone` | main.py:65 | a wider window, or an earlier clock reading, never drops a kept repo; so a clock read later for a later repo can only reject more |
| `Repos.RepoFilterAsWrittenIff` | main.py:65 | as written, the cutoff comes from the local clock, so the effective window is `last_n_day` days minus the local UTC offset; it matches the intended filter when the offset is zero |
| `Repos.LocalClockShiftsWindow` | main.py:65 | at UTC+2, a matching repo pushed 27 days and 23 hours ago is kept by the intended filter and dropped by the filter as written |
| `RepoServer.Server.Answer` | main.py:91 | the page returned for a request has at most `first` edges; it is the contiguous run of edges after the request's cursor; and it is short only when it reaches the end of the list |
| `Pagination.RecordsAppend` | main.py:92 | building records from two runs of edges joined together gives the two record lists joined together (`results.extend`) |
| `Pagination.FetchPage` | main.py:89-91 | one query-and-execute round trip returns the server's answer for 100 edges after the truthy cursor, or from the start when the cursor is not truthy; within a walk that is the next 100 edges (or the rest) after the edge the cursor names |
| `Pagination.FetchAll` | main.py:85-96 | the loop terminates, and `results` is the records of all edges in API order; the pages fetched are exactly `Chunks`; the cursors the queries were built from are exactly `CursorsSent`: none first, then the cursor of the edge before each page |
| `Pagination.WalkTrace` | main.py:86-96 | for the pages and cursors of a complete walk: the first query has no cursor; each later query's cursor is that of the last edge of the previous page, which was full; every cursor sent was issued by the server; each page is the server's answer to its query |
| `Pagination.PageFacts` | main.py:89-95 | the k-th page of a walk is the server's answer to the cursor of the edge just before it, and for k > 0 that cursor is the last one of the full page k - 1 |
| `Pagination.ChunkAt` | main.py:93-96 | the k-th page of a walk is the run of up to 100 edges starting at edge 100 k |
| `Pagination.ChunkCount` | main.py:93-96 | a list of between 100 n and 100 n + 99 edges takes exactly n + 1 fetches |
| `Pagination.ChunksShape` | main.py:93-96 | a walk gets `N / 100 + 1` pages; every page but the last has 100 edges and the last has fewer; joined together they are the whole list in order |
| `Pagination.FetchCountExamples` | main.py:93-96 | 250 repositories take three fetches of 100, 100 and 50 edges; 200 take three fetches, the last of them empty |
| `Pagination.PagesAreChunks` | main.py:93-96 | any reading of the list as full pages followed by one short page is the reading `Chunks` describes |
| `Selection.SelectNames` | main.py:104 | the list of names is never longer than `results` |
| `Selection.SelectNamesIsStableFilter` | main.py:104 | the k-th name is the name of the k-th kept repo; the kept positions increase; every kept repo appears and only kept repos appear |
| `Selection.SelectedIff` | main.py:104 | a name is in the output iff some kept repo carries it |
| `Selection.SelectNamesAppend` | main.py:104 | filtering a joined list gives the joined filtered lists |
| `Selection.SelectNamesSnoc` | main.py:104 | one more repository adds its name at the end exactly when the filter keeps it |
| `FetchRepoList.Run` | main.py:84-104 | the names written out are the names of the server's repositories that pass the filter, in the server's order, and there are no more of them than repositories |
| `FetchRepoList.SelectionPerPage` | main.py:92-104 | selecting from all fetched pages joined together equals selecting page by page and joining the results, so page boundaries do not matter |
| `FetchRepoList.TwoRepositoryExample` | main.py:85-104 | two repos pushed 5 days ago, from `org/tpl` and `other/tpl`, with a 28-day window and template `org/tpl`: one fetch, and the output is exactly `["a/x"]` |

## Left out

- `create_client`, `AIOHTTPTransport` and the `gql`/`Client` calls are network transport and a foreign
  library. `RepoServer.Server` replaces them as a page source over a finite edge list.
- Transport, authentication and query errors are not modelled. The script does not catch them. The
  model's server answers every query the loop can send.
- `RepoServer.Server.Respond` requires a cursor that the server issued. The real API would report an
  error for any other cursor. `Pagination.WalkTrace` proves the loop only ever sends issued cursors.
- `Pagination.FetchAll` requires non-empty, distinct cursors free of `"` and `\` (`WellFormed`), because
  the platform guarantees them. With an empty cursor, `generate_query` would drop the clause and the
  script would fetch the first page again forever. `generate_query` inserts the cursor without escaping,
  so a cursor holding `"` would make `gql` raise a syntax error, and one holding `\` would be read as a
  different cursor. The model does not cover such cursors.
- `GraphQuery.ParseAfter` is not GraphQL string-literal parsing. It takes the raw text between
  ` after: "` and the closing `"`, which is the cursor only for cursors without `"` or `\`.
- `argparse` is command-line plumbing. The template name and the window are parameters, and the
  defaults (28 days, `SFLScientific/SFL-Template`) are constants.
- `datetime.today()` reads the clock, so `now` is a parameter. The script reads the clock once for each
  repository whose template matches (line 63 returns before line 65 runs for the others), while the model
  uses one reading for the whole pass. `Repos.RepoFilterMonotone` shows that a later reading can only
  reject more.
- Parsing `pushedAt` (`[:-1]` and `datetime.fromisoformat`) is a library parser. A node carries the
  parsed instant. A malformed timestamp, which would raise an error, is not modelled.
- The range limits of `datetime` and `timedelta` are not modelled. `datetime.today() - timedelta(days=n)`
  raises `OverflowError` once the result leaves years 1 to 9999. That happens at about 740,000 days back,
  or about 2.9 million days forward for a negative window. `timedelta` itself rejects more than
  999,999,999 days.
- A `templateRepository` object with no fields would be falsy in Python. The API always returns
  `nameWithOwner` in it, so the model treats the object as either present with a name or absent.
- Writing `repos.txt` is file I/O, and its content depends on Python's `repr` of a list. The model
  stops at the list of names.

## Findings

| source | as written | input that shows it | evidently intended | confidence | as-written member | corrected member |
|---|---|---|---|---|---|---|
| main.py:65 | the cutoff is `datetime.today() - timedelta(days=last_n_day)`. That is local wall-clock time, compared with `pushedAt`, which is UTC once its `Z` is stripped | on a machine at UTC+2 with `--last_active 28`: a repo from the template, pushed 27 days and 23 hours ago, is dropped | keep every repo pushed within `last_n_day` days of the current instant, on one time scale | medium (not executed; holds whenever the machine's clock is not at UTC) | `Repos.LocalClockShiftsWindow` | `Repos.RecencyBoundary` |
