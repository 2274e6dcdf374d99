# MTDD routing proxy and scatter/gather merge: a verified model

MTDD routes PostgreSQL traffic by tenant. A proxy speaks the PostgreSQL wire protocol, binds a tenant
id (tid) with `SET mtdd.tid`, asks a lookup service which shard the tid lives on, and sends each
statement to that one shard. Beside the proxy, the library rewrites a SELECT with aggregates or
ORDER BY into a row-level SELECT for every shard, loads the answers into a temporary table and re-runs
the whole query there; it moves results in a column-major binary format, keeps LISTEN/NOTIFY
subscriptions, and caches SQL classifications. This project models those parts and proves what they
keep, and, where a promise fails, exactly when.

| file | what it holds |
|---|---|
| `Common.dfy` | options, results, facts about sequences and insertion-ordered sets |
| `Ast.dfy`, `FanOut.dfy` | SELECT statements, aggregate classes, the walkers, the validator and the rewrite |
| `Query.dfy`, `Answers.dfy`, `Locality.dfy`, `Merge.dfy` | how a query is executed on a table; what its answer is in terms of the rows; values depend only on the columns mentioned; scatter, gather, re-run |
| `Rewrite.dfy`, `Fragment.dfy`, `OrderOnly.dfy`, `Shadow.dfy` | when merging gives the direct answer: aggregate queries, grouping by columns, row-level queries, row-level queries for all data and meanings |
| `Grouping.dfy`, `KeyShadow.dfy` | grouped queries without aggregates, for given data and for all data and meanings |
| `GroupOrder.dfy`, `GroupRanks.dfy` | aggregates that only ORDER BY computes: what is kept, and for which queries the order is right |
| `DistinctCounts.dfy`, `Limits.dfy` | DISTINCT over counts, failing inputs |
| `Validator.dfy`, `Acceptance.dfy`, `Placement.dfy` | what the validator guarantees, which queries are accepted, independence of row placement |
| `Session.dfy`, `SessionRuns.dfy`, `TextRuns.dfy`, `StatusRuns.dfy`, `Pools.dfy` | one session as code between awaits, its runs under arbitrary failures, which text is sent for which statement, the status letter over runs of query strings, many sessions over shared pools |
| `Bytes.dfy`, `Wire.dfy`, `Framing.dfy`, `Chunking.dfy`, `Unread.dfy`, `Replies.dfy`, `WireLiterals.dfy` | message bodies, the resumable frame reader, independence of chunking, what stays unread after an error, result frames read back, messages byte by byte |
| `Splitter.dfy`, `TidSql.dfy` | the statement scanner, the statement classes, the text of a bound SET |
| `Floats.dfy`, `Cells.dfy`, `Rpgb.dfy`, `RpgbProofs.dfy`, `BatchLiterals.dfy`, `Stream.dfy`, `Results.dfy` | IEEE 754 patterns of integral numbers, the RPGB v1 batch format, cells and a batch byte by byte, and the chunk stream of a result |
| `Cache.dfy` | the classification cache against a least-recently-used list of its history |
| `Notify.dfy`, `NotifyRuns.dfy`, `Tenants.dfy` | registry and in-memory transport against the subscription relation, and that relation over tenants |
| `Load.dfy`, `LoadedMerge.dfy` | the three ways of loading the temporary table, and the merge with its loading step |

What the environment decides (answers of the lookup service, checkouts, backend queries, arriving
chunks, the meaning of operators and aggregates) is a parameter of the statements, so every result
holds for all of it. Classes carry the program's own fields and are proved against specification
functions; the lemmas are about those functions and about whole runs of them.

## Results that correct a promise

- **Doubled quotes in a tid.** `INTEGRATION.md:68` and its helpers (`INTEGRATION.md:93-96`) tell clients
  to double single quotes, and Execute does the same for a bound parameter. The pattern for SET has no
  branch for them, so a tid with a single quote never comes back; neither does one with a backslash
  before a double quote. `TidSql.BoundSetExact` gives the condition in both directions.
- **Filtered or sorted columns that are not selected.** The re-run reads WHERE and ORDER BY on the
  temporary table, which holds only the projected columns: `Rewrite.AggregateRewriteExact`,
  `Fragment.ColumnGroupingExact`, `OrderOnly.OrderRewriteExact`; `Limits.FilterColumnLost` and
  `Limits.CastColumnLost` are the failing inputs.
- **DISTINCT with aggregates** is kept on the shards and drops rows before they are aggregated: for a
  query that shows its groups and counts their rows, the answer is right exactly when no shard drops
  one: `DistinctCounts.DistinctAggregateExact`.
- **A computed column under the name of a column that is read** changes or loses rows silently, as in
  `Limits.ShadowedFilterLosesRows`. `Shadow.RowQueryExact` and `KeyShadow.KeyRowsExact` say for which
  queries without aggregates this cannot happen, whatever the rows and whatever the operators mean.
- **An aggregate that only ORDER BY computes** does not make a query an aggregate one
  (`src/select-local-fanout.ts:505`), so the re-run aggregates one row for each group of each shard. The
  rows are right (`GroupOrder.GroupsAreKept`); `GroupRanks.GroupOrderExact` says for which queries their
  order is right for all data, and `GroupRanks.RankingIsLost` is one for which it is not.
- **An aggregate that cannot be merged, inside an operator**, as in `SELECT a, 1 + median(x) FROM t GROUP BY a`,
  is not looked at: validation begins only for an ORDER BY, a supported, rejected or window call, or a grouped
  query with a SELECT column that is itself a call (`src/select-local-fanout.ts:387-400`), so the groups of the shards
  are returned unmerged: `Acceptance.AcceptedExactly`, `Acceptance.HiddenMedianIsNotMerged`.
- **ROLLBACK TO SAVEPOINT name** is taken for ROLLBACK and ends the transaction, while `ROLLBACK TO name`,
  which PostgreSQL takes for the same command, is sent as data and keeps it: `TidSql.RollbackExact`,
  `TidSql.RollbackEffect`.
- **BEGIN or START TRANSACTION with options over several lines** is sent to a shard as an ordinary statement: `TidSql.BeginExact`.
- **A malformed Parse or Bind body** leaves the messages behind it unread with nothing pending, even when
  a wake-up was noted: `Unread.ThrowLeavesExactly`. A reader at rest leaves received messages unread only
  there, or behind a Terminate or a wrong password: `Unread.RestLeavesExactly`; `Unread.LosingRunExists`
  is one run. A length word of -1 makes the reader repeat one turn for ever: `Chunking.SpinsExactly`.
- **The status letter** that a Sync reports (and the reply to a malformed or unsupported message) is wrong
  exactly from a BEGIN outside a transaction that failed until a query string ends without an error or a
  BEGIN, COMMIT or ROLLBACK is accepted: `StatusRuns.StatusExact`. A simple query that fails reports E or
  I by itself (`src/proxy/session.ts:262-273`).
- **A failed checkout or backend BEGIN** leaves the transaction fields out of step until the transaction
  ends: `SessionRuns.FieldsAgree`, `SessionRuns.DataFollowsBegin`.
- **Colons in a notification scope** make keys of different tenants equal: `NotifyRuns.KeysCollideExactly`;
  **LISTEN after a release** is never notified: `NotifyRuns.ReleasedStaysDeaf`; a release leaves the
  client in the transport exactly when it listens somewhere and every scope it listens under is empty
  or begins with a colon: `NotifyRuns.ReleaseLeaksExactly`.
- **Empty text loaded with COPY** becomes NULL, in the table (`Load.LoadExact`) and in the answer: `LoadedMerge.StarLoadedExact`.
- **Text in an integer column of format 0** is sent as binary and does not come back:
  `Results.ResultRowsExact` with `Cells.CellRoundTripExact`.

## Model

| member | source | states |
|---|---|---|
| FanOut.CollectRefsFromExpr | src/select-local-fanout.ts:150-185 | the in-place walk adds exactly the columns that the recursive specification collects, each once and in order of first use, and keeps the set free of repetitions |
| FanOut.WalkAllCalls | src/select-local-fanout.ts:191-220 | the walk appends exactly the calls that the specification finds in the expression, outer before inner |
| FanOut.WalkExprForAggregates | src/select-local-fanout.ts:339-363 | the walk appends the supported aggregates of the expression, each before those in its own arguments |
| FanOut.AssertFanOutAggregateSupport | src/select-local-fanout.ts:241-337 | the checks over the collected calls report the first error in the order of the source, or none |
| FanOut.BuildRowLevelColumns | src/select-local-fanout.ts:413-481 | the loops that grow the projection build the specified one: group columns, then every needed column once, then the row marker if nothing is needed |
| FanOut.SplitSelectForLocalFanOut | src/select-local-fanout.ts:493-547 | each statement is refused, left alone or split as specified, on all statements |
| Validator.AllCallsExact | src/select-local-fanout.ts:191-220 | a call is collected if and only if it occurs in the expression outside subqueries |
| Validator.ContainsSubqueryExact | src/select-local-fanout.ts:113-148 | the subquery test answers yes if and only if a subquery occurs |
| Validator.AcceptedIsMergeable | src/select-local-fanout.ts:241-337 | in an accepted statement no call at any depth is a window call or rejected aggregate, ordered aggregates carry their ordering and no aggregate holds a subquery |
| Validator.ShardQueryIsRowLevel | src/select-local-fanout.ts:483-547 | the shard query of an aggregate query has no GROUP BY, HAVING, ORDER BY, LIMIT or aggregate operand left, at least one column, and the same source and filter |
| Acceptance.NameIgnoresCase | src/select-local-fanout.ts:241-300 | two function names are taken for one if and only if they agree letter by letter, in any case |
| Acceptance.FindAggregatesExact | src/select-local-fanout.ts:339-363 | a call is found if and only if it is a supported aggregate and is reached through operands and arguments |
| Acceptance.UnknownCallExact | src/select-local-fanout.ts:285-337 | nothing is reported below an expression if and only if every call that no supported aggregate stands around has a supported name or WITHIN GROUP |
| Acceptance.AcceptedExactly | src/select-local-fanout.ts:493-547 | a query is accepted if and only if, where it is looked at, no call is a window call or rejected, every aggregate is mergeable and a grouped query has no unknown call outside its aggregates, and, where it is merged, it reads one table without OFFSET; it is merged if and only if it sorts or aggregates |
| Acceptance.BlamedCall | src/select-local-fanout.ts:241-337 | each refusal is right about some call of the query: the window call, the rejected, unordered, subquery-holding or unknown one that it names |
| Acceptance.CallsInOrder | src/select-local-fanout.ts:191-220 | the calls of a nested expression are walked from the outside in and from left to right |
| Acceptance.KindsOfAggregates | src/postgres-aggregate-functions.ts:5-170 | one aggregate of each kind: merged as it stands, only with ORDER BY, only with WITHIN GROUP, and never |
| Acceptance.MedianIsRefused | src/select-local-fanout.ts:285-337 | `SELECT a, median(x) FROM t GROUP BY a` is refused for `median` |
| Acceptance.AbsInsideIsMerged | src/select-local-fanout.ts:285-337 | `SELECT a, SUM(abs(x)) FROM t GROUP BY a` is split, although `abs` is no aggregate |
| Acceptance.HiddenMedianIsNotMerged | src/select-local-fanout.ts:387-400 | `SELECT a, 1 + median(x) FROM t GROUP BY a` is accepted and left unmerged |
| Locality.EvalLocal | src/select-local-fanout.ts:150-185 | two rows that agree on the columns an expression mentions give it the same value |
| Locality.LinesLocal | src/postgres-select-merge.ts:263-268 | two tables that agree row by row on the columns a query mentions give it the same lines, grouped or not |
| Answers.RowAnswer | src/postgres-select-merge.ts:263-268 | a plain query returns the rows that WHERE lets pass, in order and as many as LIMIT allows, each as the values of its columns |
| Answers.GroupAnswer | src/postgres-select-merge.ts:263-268 | a grouped query returns one line for each key of the passing rows whose group HAVING lets pass, with the values on that group |
| Answers.InputsPick | src/postgres-select-merge.ts:263-268 | an aggregate sees exactly the rows that its FILTER lets pass, in order, with arguments and sort keys |
| Answers.FinishExact | src/postgres-select-merge.ts:263-268 | DISTINCT drops only repetitions, ORDER BY sorts, LIMIT cuts off behind it, and nothing else is lost |
| Answers.OrderTermExact | src/postgres-select-merge.ts:263-268 | a name in ORDER BY means the first output column of that name, else the table's column |
| Merge.CollectMergedRows | src/postgres-select-merge.ts:54-62 | the merged rows are the concatenation of the shard answers in shard order |
| Rewrite.RowLevelColumnsFine | src/select-local-fanout.ts:413-481 | every projected expression is row-level and reads only columns of the original query |
| Rewrite.ShardRowsPlain | src/select-local-fanout.ts:483-547 | what all shards return together is the image of the passing rows of the concatenated tables |
| Rewrite.RerunLines | src/postgres-select-merge.ts:263-268 | on the loaded rows the filter passes again and grouping, HAVING and ordering give the lines of the original rows |
| Rewrite.AggregateRewriteExact | src/select-local-fanout.ts:493-547 | for any placement of rows, merging an aggregate query gives the direct answer if and only if the direct query fails anyway or the shard columns are distinct and cover every column the query reads |
| Fragment.GroupedReads | src/select-local-fanout.ts:413-481 | what a grouped expression reads is read by a grouping expression or by one of its aggregates |
| Fragment.ColumnGroupingExact | src/select-local-fanout.ts:413-481 | for grouping by columns with FILTER, inner ORDER BY, HAVING, ORDER BY and LIMIT, merging is right if and only if the columns of WHERE and ORDER BY are returned by the shards or the direct query fails |
| OrderOnly.OrderRewriteExact | src/select-local-fanout.ts:108-111 | for queries that only sort, limit or drop duplicates, merging is right if and only if the direct query fails or the distinct output names cover what the query reads |
| Shadow.RowQueryExact | src/select-local-fanout.ts:526-540 | a row-level query that one database answers is merged correctly for all rows, shards and meanings if and only if its output names are distinct and cover what it reads and, unless LIMIT is 0, no computed column takes a name that the SELECT list or WHERE reads, or that ORDER BY reads while the SELECT list reads a column |
| Shadow.EvalDiffers | src/select-local-fanout.ts:150-185 | some meaning tells apart any two rows that differ in a column an expression mentions, whatever stands around it |
| Shadow.ShadowInOrder | src/select-local-fanout.ts:526-540 | where only ORDER BY reads a shadowed name, two rows and a comparison that sorts come back in the other order |
| KeyShadow.KeyRowsExact | src/select-local-fanout.ts:526-540 | a grouped query without aggregates and HAVING, and with room for two rows, is merged correctly for all rows, shards and meanings if and only if its output names are distinct and cover what it reads and no computed column takes a name that the SELECT list or WHERE reads, nor GROUP BY unless DISTINCT hides it |
| Grouping.KeysOfAllShards | src/postgres-select-merge.ts:54-62 | the groups that pass HAVING, found shard by shard and then once more, are those of all rows, in order of first appearance |
| Grouping.KeyQueryExact | src/select-local-fanout.ts:493-547 | for grouped queries without aggregates, with HAVING, DISTINCT, ORDER BY and LIMIT, merging is right if and only if the direct query fails or the distinct output names cover what the query reads |
| GroupOrder.GroupsAreKept | src/select-local-fanout.ts:505-547 | when only ORDER BY computes aggregates, the merged answer has as many rows as the direct one and, without LIMIT, the same rows |
| GroupRanks.GroupOrderExact | src/select-local-fanout.ts:505-547 | such a query is merged correctly for all rows and shards, under all meanings or all sensible ones, if and only if its output names are distinct and cover what it reads and: LIMIT is 0, or GROUP BY reads no column, or a literal NULL or false condition lets no group in, or no aggregate in ORDER BY can have inputs |
| GroupRanks.AnyGroupOrderExact | src/select-local-fanout.ts:505-547 | for all meanings that is: LIMIT 0, no column in GROUP BY, or no aggregate in ORDER BY |
| GroupRanks.GroupDiffers | src/postgres-select-merge.ts:263-268 | under a meaning that counts, an expression with an aggregate that has inputs tells groups of different sizes apart, whatever stands around the aggregate |
| GroupRanks.RankingIsLost | src/select-local-fanout.ts:505-547 | for `SELECT a FROM t GROUP BY a ORDER BY count(a)` some rows and some sensible meaning give another order than the direct answer |
| OrderOnly.StarAlwaysAgrees | src/select-local-fanout.ts:526-540 | `SELECT *` with ORDER BY, LIMIT and DISTINCT is merged correctly for every table and placement |
| Limits.PlainCountAgrees | src/select-local-fanout.ts:413-481 | `SELECT count(x) FROM t` is merged correctly for every table, meaning and placement |
| Limits.FilterColumnLost | src/select-local-fanout.ts:413-481 | `SELECT count(x) FROM t WHERE y` is never merged correctly |
| Limits.CastColumnLost | src/select-local-fanout.ts:150-185 | an aggregate over a cast column is never merged correctly, because the walker does not enter the cast |
| DistinctCounts.CountsAddUp | src/postgres-select-merge.ts:263-268 | for a DISTINCT query that shows its groups, the counted column of the answer adds up to the number of rows that passed |
| DistinctCounts.DistinctAggregateExact | src/select-local-fanout.ts:483-491 | for any DISTINCT query that selects its grouping expressions and a column counting the rows of each group, merging is right if and only if the direct query fails, or the shard columns are distinct, cover what is read, and no shard drops a row |
| DistinctCounts.DistinctGroupingExact | src/select-local-fanout.ts:413-481 | for grouping by columns, that is if and only if the shards return the columns of WHERE and ORDER BY and drop no row, or the direct query fails |
| DistinctCounts.DistinctCountExact | src/select-local-fanout.ts:483-491 | `SELECT DISTINCT count(*) FROM t` is right if and only if no shard holds two rows |
| Limits.ShadowedFilterLosesRows | src/select-local-fanout.ts:526-540 | a row that passes on its shard is lost when a computed column takes the filtered column's name |
| Placement.DirectPlacement | src/postgres-aggregate-functions.ts:49-83 | with commutative aggregates, permuting the rows permutes at most the order of a grouped answer, DISTINCT or not; with LIMIT its length stays, and the answer itself when the ORDER BY keys tell the lines apart |
| Placement.MergedPlacement | src/select-local-fanout.ts:413-481 | with commutative aggregates, two placements of the same rows on shards give merged answers that agree in the same way: same rows without LIMIT, same length with it, the same answer when the sort decides |
| Placement.SortSorts | src/postgres-select-merge.ts:263-268 | the specification's sort leaves neighbouring lines in the order of their keys and directions |
| Session.ProxySession.Dispatch | src/proxy/session.ts:277-326 | one statement moves the fields and the trace exactly as the turns between its awaits do, and says whether it threw |
| Session.ProxySession.RunSql | src/proxy/session.ts:231-245 | the statements of a query string take effect in order up to the first that throws; an empty one changes nothing |
| Session.ProxySession.SetTenant | src/proxy/session.ts:278-299 | a SET binds its tid unless it is empty or maps away from the shard the transaction is pinned to |
| Session.ProxySession.BeginTransaction | src/proxy/session.ts:304-309 | BEGIN opens the transaction, pinning it at once when a tid is bound |
| Session.ProxySession.EndTransaction | src/proxy/session.ts:310-324 | COMMIT and ROLLBACK release the client only after the backend accepted them, and then forget pin and tid |
| Session.ProxySession.EnsurePinned | src/proxy/session.ts:328-349 | looks up, refuses another shard, and on the first use checks out a client and opens the backend transaction |
| Session.ProxySession.RunData | src/proxy/session.ts:351-372 | a data statement needs a tid; in a transaction it goes to the pinned client, outside one it consumes the tid |
| Session.ProxySession.Cleanup | src/proxy/session.ts:68-82 | cleanup rolls back, releases the client if there is one, and forgets everything |
| Session.SetDispatch | src/proxy/session.ts:278-299 | a SET from start to end, for every state and environment: which tid is bound, what is sent and when it is refused |
| Session.ResetDispatch | src/proxy/session.ts:300-303 | a RESET forgets the tid outside a transaction and is refused inside one, changing nothing |
| Session.BeginDispatch | src/proxy/session.ts:304-309 | a BEGIN from start to end: the transaction is open whether or not pinning succeeds, the letter T only if it does |
| Session.EndDispatch | src/proxy/session.ts:310-324 | a COMMIT or ROLLBACK from start to end: sent on the client if there is one, and only its success ends the transaction |
| Session.AutocommitDispatch | src/proxy/session.ts:362-372 | outside a transaction a data statement needs a tid and a valid lookup; its own text is then sent once to that shard, the tid is used up, and it ends as the query does |
| Session.TransactionDispatch | src/proxy/session.ts:351-361 | inside one, its own text is sent once on the client of the pinned shard after pinning, and it ends as the query does |
| TextRuns.TextIsTheStatement | src/proxy/session.ts:277-372 | in every run, whatever is sent while a statement is dispatched is that statement's own text, its own COMMIT or ROLLBACK, or a BEGIN for it |
| TextRuns.AnswerDecides | src/proxy/session.ts:310-372 | in every run the answer to a sent statement decides, by itself and at once, whether the statement returns or throws |
| TextRuns.ReturnedWasSent | src/proxy/session.ts:351-372 | in every run a data statement returns only when its own text was sent and the backend accepted it |
| StatusRuns.StatusExact | src/proxy/session.ts:231-326 | after any query strings with any failures, the status letter is wrong if and only if a BEGIN outside a transaction threw and since then no query string ended without an error and no BEGIN, COMMIT or ROLLBACK was accepted; it is then I inside a transaction |
| StatusRuns.ErrorStatusExact | src/proxy/session.ts:231-245 | in any run a query string fails if and only if one of its statements throws, and the letter is then wrong if and only if it was so before this statement or the statement was a BEGIN outside a transaction |
| StatusRuns.MisreportedRunExists | src/proxy/session.ts:304-349 | a BEGIN that gets no client, and a SELECT behind it, leave a session in a transaction that reports I |
| SessionRuns.RunKeeps | src/proxy/session.ts:277-372 | the invariant tying fields, suspended dispatch, client phases and trace holds in every run with arbitrary failures |
| SessionRuns.DispatchKeeps | src/proxy/session.ts:277-326 | a whole statement as the class runs it keeps that invariant |
| SessionRuns.RoutingIsSafe | src/proxy/session.ts:328-372 | every data statement goes to the shard last looked up for the tid in force, and those of one transaction to one client of one shard |
| SessionRuns.FieldsAgree | src/proxy/session.ts:304-349 | between statements a held client means pinned unless a checkout failed in this transaction, and means a backend transaction unless BEGIN failed, both in both directions |
| SessionRuns.ClientsAreUsedInOrder | src/proxy/session.ts:68-82 | a client is checked out once, gets BEGIN first and one command at a time, and is released once, after a successful end or cleanup |
| SessionRuns.DataFollowsBegin | src/proxy/session.ts:340-361 | a data statement follows the answer to its client's BEGIN, and runs outside a backend transaction if and only if that answer was an error |
| Pools.BackendPools.Account | src/proxy/backend-pool.ts:32-43 | the counters grow by exactly the counted events of a turn, shard by shard |
| Pools.SystemRunKeeps | src/proxy/backend-pool.ts:4-48 | sessions sharing pools keep their invariants, disjoint clients and exact counters in every interleaving at awaits |
| Pools.ClientsAreConserved | src/proxy/session.ts:310-349 | the clients out of a shard's pool are as many as the sessions holding a client pinned to that shard |
| Pools.QueriesAreConserved | src/proxy/backend-pool.ts:32-43 | a shard's query counter is the number of commands sent to it plus the statements counted after a failed checkout, so equal to the former when no checkout failed |
| Wire.HandleBind | src/proxy/session.ts:207-229 | the loop with its moving offset reads the values the specification reads, and throws exactly where that has none |
| Wire.HandleStartup | src/proxy/session.ts:174-183 | the loop over keys and values finds the last user, and throws exactly on an unterminated string |
| Wire.StartupReadsBack | src/proxy/session.ts:174-183 | a packet written from keys and values gives the value of its last `user` key, or none |
| Wire.BindReadsBack | src/proxy/session.ts:207-229 | any list of NULL and text parameters comes back from a Bind message, whatever names, formats and result formats stand around it |
| Wire.ParseReadsBack | src/proxy/session.ts:199-205 | a Parse body gives its query text, whatever name and types stand around it |
| Wire.ParseThrowsExactly | src/proxy/session.ts:199-205 | a Parse body throws if and only if it has fewer than two terminators |
| Framing.FrameReader.OnData | src/proxy/session.ts:23-53 | an arriving chunk runs the pump, or is only remembered while a pump is pending |
| Framing.FrameReader.OnSettled | src/proxy/session.ts:39-52 | the callback runs the pump again when a wake-up was noted, and clears the pending state otherwise or after an error |
| Framing.FrameReader.RunPump | src/proxy/session.ts:84-172 | the loop handles exactly the messages of the specification up to an await, the end of the bytes, a stop, an error or an endless turn |
| Chunking.ParseExtends | src/proxy/session.ts:84-131 | more bytes never change the messages already complete in a stream |
| Chunking.RunInStep | src/proxy/session.ts:23-53 | in every run the handled messages and the buffer make up the stream, or the stream was handled to its end |
| Chunking.ChunkingIsHarmless | src/proxy/session.ts:23-53 | for any bytes, cut and interleaving, handled messages and stream agree as far as both go, and a reader at rest has handled the whole stream |
| Chunking.SameStreamSameMessages | src/proxy/session.ts:84-172 | two runs over the same bytes, both at rest, end in the same state with the same messages |
| Chunking.ComesToRest | src/proxy/session.ts:33-53 | on an unbroken stream every resumption and callback strictly reduces the work left, so no wake-up is lost and none loops |
| Chunking.ReadyNeedsPassword | src/proxy/session.ts:97-131 | with a password configured, no run makes the session ready before a message with that password was handled |
| Chunking.PasswordReadsBack | src/proxy/session.ts:115-131 | a password message opens the session if and only if it carries the password, and ends the stream otherwise |
| Chunking.SpinsExactly | src/proxy/session.ts:107-113 | a turn makes no progress if and only if the length word is -1 or below that by the whole buffer |
| Unread.RunInPlace | src/proxy/session.ts:23-172 | in every run, errors included, the handled messages are the first of the received bytes and the buffer holds exactly the bytes behind them, unless one of them has an impossible length |
| Unread.RestLeavesExactly | src/proxy/session.ts:23-53 | a reader at rest leaves a whole message unread if and only if the received bytes hold one behind the handled messages, and only if the last of these threw, or was a Terminate or a wrong password |
| Unread.ThrowLeavesExactly | src/proxy/session.ts:39-52 | a reader that has thrown was thrown by the last message it handled and holds the received bytes behind it; after the callback only a further chunk can go on, so a message stays unread if and only if more was received than handled |
| Unread.FirstThrowLeaves | src/proxy/session.ts:84-172 | at the first error of a stream the reader holds the bytes that the protocol's reading finds behind it |
| Unread.ThrowLosesWakeUp | src/proxy/session.ts:23-53 | with and without a password, the bytes that come behind any malformed Parse or Bind during the first query stay unread, with nothing pending and the wake-up forgotten |
| Unread.LosingRunExists | src/proxy/session.ts:185-229 | an empty Parse body with a whole Sync behind it is such a run |
| Chunking.FramesReadBack | src/proxy/pg-wire.ts:10-15 | encoded frames, one after the other, are read as just those frames |
| Chunking.SslReadsOver | src/proxy/session.ts:86-93 | the eight bytes of an SSL request are one message, and what stands behind them is read as a first packet |
| Chunking.ClientStreamParses | src/proxy/session.ts:84-131 | any number of SSL requests, a startup packet, the password if one is configured, and ordinary frames are read as just these messages |
| Chunking.SessionReadsBack | src/proxy/session.ts:84-172 | such a stream, SSL requests included, cut and delivered in any way, is handled in order and completely, with and without a password |
| Replies.EncodeResult | src/proxy/pg-wire.ts:114-139 | the loops build the specified frames: none but CommandComplete without columns, else one per row between description and completion |
| Replies.ResultReadsBack | src/proxy/pg-wire.ts:73-139 | the bytes of a result, read by the frame rule and then frame by frame, show the name, type and format of each column, under each column the row object's cell of that name, NULL where it has none, or the list row as it stands, and a tag that says what was done; without columns only the tag |
| WireLiterals.QuerySyncTerminate | src/proxy/session.ts:107-172 | the bytes of a Query, a Sync and a Terminate are read as these, and the reader waits, goes on and stops |
| WireLiterals.StartupOfUser | src/proxy/session.ts:174-183 | the bytes of a startup packet for `u` give the user `u` |
| WireLiterals.Passwords | src/proxy/session.ts:115-131 | the bytes of a right password, a wrong one and another message open, end and keep the password phase |
| WireLiterals.ReadyReader | src/proxy/session.ts:23-53 | the bytes of a Query, an Execute, a Terminate and an empty Parse leave the reader awaiting, awaiting, done and rejected |
| WireLiterals.RefusedReader | src/proxy/session.ts:115-131 | after a wrong password the reader is done, and the bytes behind it stay unread |
| WireLiterals.LoopingReader | src/proxy/session.ts:107-113 | the bytes of a frame with length word -1 keep the reader busy for ever |
| WireLiterals.BindOfTwo | src/proxy/session.ts:207-229 | the bytes of a Bind with NULL and `ab` give these two values |
| WireLiterals.LiteralDescription | src/proxy/pg-wire.ts:73-94 | the row description of one int4 column, byte by byte |
| WireLiterals.LiteralRow | src/proxy/pg-wire.ts:96-112 | the data row of NULL and `1`, byte by byte |
| WireLiterals.LiteralTags | src/proxy/pg-wire.ts:114-139 | the tags of an INSERT, a SELECT and a SET, and one completion byte by byte |
| Splitter.SplitStatements | src/proxy/tid-sql.ts:6-77 | the scanner returns the nonempty trimmed texts between the semicolons that a one-character-at-a-time automaton finds outside quotes and comments |
| Splitter.EveryPiece | src/proxy/tid-sql.ts:6-77 | without comments, each piece is a nonempty trimmed slice that begins outside quotes and holds no cut |
| Splitter.SplittingAPiece | src/proxy/tid-sql.ts:6-77 | splitting a piece of a comment-free query returns just that piece |
| Splitter.SplitUndoesJoin | src/proxy/tid-sql.ts:6-77 | closed statements joined with semicolons are split into the same statements |
| TidSql.BoundSetIsOneStatement | src/proxy/session.ts:247-255 | whatever the parameter holds, the text built for a bound SET is one statement |
| TidSql.BoundSetExact | src/proxy/tid-sql.ts:79-96 | that text binds exactly the parameter if and only if it has no single quote and no double quote behind a backslash |
| TidSql.BoundSetBinds | src/proxy/session.ts:247-255 | executing a bound SET outside a pinned transaction leaves exactly the parameter in force |
| TidSql.OnlyTheSetRuns | src/proxy/session.ts:247-255 | anything else in the prepared text is dropped when the SET has a parameter |
| TidSql.RollbackExact | src/proxy/tid-sql.ts:84-101 | a statement that begins with ROLLBACK, in any case, is taken for ROLLBACK if and only if nothing, TRANSACTION, or TO SAVEPOINT and one name stand behind it, and for data otherwise |
| TidSql.RollbackEffect | src/proxy/session.ts:310-372 | in a pinned transaction the former sends ROLLBACK, releases the client and forgets the tid; the latter reaches the client as it stands and changes no field |
| TidSql.SavepointForms | src/proxy/tid-sql.ts:84 | for every name without white space, the form with the word SAVEPOINT ends the transaction and the form without it does not |
| TidSql.KeywordsClassify | src/proxy/tid-sql.ts:82-84 | BEGIN, COMMIT and ROLLBACK are recognised in any case |
| TidSql.CommitExact | src/proxy/tid-sql.ts:83 | a statement that begins with COMMIT, in any case, is one if and only if nothing or TRANSACTION stands behind it, and data otherwise |
| TidSql.ResetExact | src/proxy/tid-sql.ts:81 | a statement that begins with RESET, in any case, forgets the tid if and only if white space and just the name `mtdd.tid` stand behind it |
| TidSql.SetSpellings | src/proxy/tid-sql.ts:79-96 | whatever case and white space, with = or TO, bare or in single or double quotes, a SET of a plain tid binds it |
| TidSql.SetQuoted | src/proxy/tid-sql.ts:79-96 | in quotes any text without quotes and backslashes is bound, the empty one and white space included |
| TidSql.SetSpaced | src/proxy/tid-sql.ts:79-101 | an unquoted value with white space in it makes the statement data |
| TidSql.LooksExactly | src/proxy/session.ts:247-255 | a bound SET is looked for in exactly the texts that begin with SET and the name of the setting |
| Splitter.SpaceExactly | src/proxy/tid-sql.ts:6-77 | white space is the 25 characters that ECMAScript names and no others |
| TidSql.BeginExact | src/proxy/tid-sql.ts:82 | BEGIN or START TRANSACTION, in any case and with any white space, is recognised if and only if its options stand on one line, and is sent as data otherwise |
| TidSql.RunText | src/proxy/session.ts:231-245 | a query text changes the session as its classified pieces do, in order |
| Cells.BigIntOfDecimal | src/pg-binary-encode.ts:69-73 | reading the decimal text of any integer gives the integer back |
| Floats.RoundsToNearest | src/pg-binary-encode.ts:75-83 | the significand written for a large number is the nearest one, and the even one of two equally near |
| Floats.PatternReadsBack | src/pg-binary-decode.ts:156-159 | the single or double pattern of an integral number reads back as that number if and only if the format represents it |
| Cells.FloatBack | src/pg-binary-encode.ts:75-83 | a value in a floating point column comes back if and only if it is a number that the column's format represents |
| Cells.CellRoundTripExact | src/pg-binary-encode.ts:38-104 | a cell survives encoding and decoding if and only if its kind and range fit the column's type and format, numbers in floating point columns included |
| Rpgb.CollectCells | src/pg-binary-encode.ts:111-130 | the first pass collects the cells column by column and its total is the exact size of the batch |
| Rpgb.WriteCells | src/pg-binary-encode.ts:132-152 | the second pass fills a buffer of that size completely, with the header and every cell at its place |
| Rpgb.EncodeRawPgBatch | src/pg-binary-encode.ts:107-152 | a batch is encoded if and only if all cells and counts fit, and then as header and column-major cells |
| Rpgb.DecodeRawPgBatch | src/pg-binary-decode.ts:176-237 | the nested loops with their moving offset return the specified rows or the specified error for any payload |
| RpgbProofs.DecodeOfEncoded | src/pg-binary-decode.ts:176-237 | decoding an encoded batch, with anything behind it, is encoding and decoding each cell on its own |
| RpgbProofs.BatchRoundTripExact | src/pg-binary-encode.ts:107-152 | for distinct names the rows come back if and only if every row has exactly the columns and every cell is typed |
| RpgbProofs.TruncationIsRejected | src/pg-binary-decode.ts:210-231 | every nonempty strict prefix of an encoded batch is rejected |
| RpgbProofs.RebuiltAppend | src/pg-binary-decode.ts:206-236 | decoding rows in two batches or in one gives the same rows |
| BatchLiterals.HeaderExactly | src/pg-binary-decode.ts:176-206 | a payload is refused for its length, its magic bytes, its version bytes or its number of columns, in this order |
| BatchLiterals.CutCells | src/pg-binary-decode.ts:210-231 | a cell cut off before its mark, in its length or in its value gives an error of its own, a whole one its bytes |
| BatchLiterals.BigIntTexts | src/pg-binary-encode.ts:69-73 | hexadecimal, signed, blank-padded and empty texts, read as BigInt reads them (`BatchLiterals.NoBigInts`: malformed ones throw) |
| BatchLiterals.BinaryCells | src/pg-binary-encode.ts:38-104 | a value of each type in its binary form, byte by byte |
| BatchLiterals.TextCells | src/pg-binary-encode.ts:38-104 | a value of each kind in its text form, byte by byte |
| BatchLiterals.FloatCells | src/pg-binary-encode.ts:75-83 | 5 and -5 as singles and 1 as a double |
| BatchLiterals.DecodedCells | src/pg-binary-decode.ts:120-174 | a value of each type read back from its binary form: too few bytes are an error, dates, uuids and numerics stay bytes |
| BatchLiterals.LiteralBatch | src/pg-binary-encode.ts:107-152 | a batch of two rows and two columns, byte by byte |
| Stream.DecodeQueryStream | src/grpc-query-codec.ts:92-152 | the loop over chunks returns the specified answer or error, whatever kinds come in whatever order |
| Stream.BatchingIsHarmless | src/grpc-query-codec.ts:92-152 | however rows are spread over the schema payload and further chunks, the answer is that of one payload, errors included |
| Stream.ErrorChunkEnds | src/grpc-query-codec.ts:92-152 | an error chunk with a message fails the query with it, whatever follows, and one without ends the stream with the answer of the chunks before it |
| Stream.BatchNeedsSchema | src/grpc-query-codec.ts:92-152 | rows before any schema fail the query |
| Stream.AnswerCarries | src/grpc-query-codec.ts:92-152 | the fields of an answer carry name, type, table, column and format of the schema, and its count and oid those of the trailer |
| Results.ColumnNamesForRows | src/grpc-query-codec.ts:233-248 | the names are those of the fields and then of the rows, each once, in order of first appearance |
| Results.EncodePgResultAsChunks | src/grpc-query-codec.ts:176-231 | a result becomes one schema chunk with all rows and a trailer, and fails exactly when its rows cannot be encoded |
| Results.ColumnIs | src/grpc-query-codec.ts:176-231 | a column is sent as the last field of its name, else as the type that the first row's value shows, else without a type |
| Results.ResultRoundTrip | src/grpc-query-codec.ts:176-231 | decoding an encoded result, its columns named by the fields or found in the rows, gives the command read from its tag, its count, these columns and the rebuilt rows |
| Results.FieldReadsBack | src/grpc-query-codec.ts:176-231 | a column comes back with the type, table and column of its field, 0 where it has none, and its format: as given, else binary for the six fixed-width types |
| Results.CommandExact | src/grpc-query-codec.ts:92-152 | the command read from the tag is the result's own if and only if that is one nonempty upper-case word |
| Results.ResultRowsExact | src/pg-binary-encode.ts:20-35 | the rows come back unchanged if and only if each is complete and typed for the formats that are sent, be the columns named by the fields or found in the rows |
| Cache.RecentExact | src/ast-classify-cache.ts:20-36 | the reference list holds exactly the texts of the history that classify, each once |
| Cache.RecentByLastUse | src/ast-classify-cache.ts:20-28 | and orders them by their last use |
| Cache.SuffixWithout | src/ast-classify-cache.ts:30-36 | the last 500 entries after a use follow from the last 500 before it, by a move to the end or an eviction |
| Cache.AnswersExactly | src/sql-parse.ts:162-178 | a text of white space is UNKNOWN unparsed, every other is what parsing gives, and exactly the others that parse are kept, at most 500 |
| Cache.ClassificationCache.GetFromMemory | src/ast-classify-cache.ts:20-28 | a hit returns the stored value and moves its key behind all others |
| Cache.ClassificationCache.SetInMemory | src/ast-classify-cache.ts:30-36 | an insertion evicts the oldest key only when the cache is full and keeps all other entries |
| Cache.ClassificationCache.ClassifyQuery | src/sql-parse.ts:162-178 | every call returns what classifying afresh returns, and the map holds exactly the 500 most recently used classified texts in order |
| Notify.ExecuteListenNotifyCommand | src/listen-notify-handler.ts:21-67 | a command changes registry and transport together as specified, and changes neither when it is refused, except that the client is known from then on |
| Notify.TeardownNotifySubscriptions | src/listen-notify-lifecycle.ts:10-34 | a release unregisters the client and clears the transport if some subscription is listed |
| Notify.MemoryTransport.UnsubscribeAll | src/mtdd-notify-transport.ts:48-52 | the loop takes the id out of every bucket and changes no other member |
| NotifyRuns.RunSound | src/listen-notify-handler.ts:33-61 | in every run a registered client's channels are exactly the buckets that hold its id |
| NotifyRuns.RegistryTracksRelation | src/notification-registry.ts:49-80 | in every run the registry holds a key of a client if and only if the client is not gone and its last event about that key was a LISTEN |
| NotifyRuns.NotifyIsExactlyOnce | src/mtdd-notify-transport.ts:54-74 | in every run a NOTIFY is delivered once to each unreleased client that listens on its key and to nobody else |
| NotifyRuns.KeysCollideExactly | src/mtdd-notify-transport.ts:14-16 | two keys are equal if and only if scope and channel are, or one scope runs on over a colon into the other's channel |
| NotifyRuns.NotifyReachesItsListeners | src/listen-notify-handler.ts:33-61 | with colon-free scopes a NOTIFY reaches each unreleased listener of its scope and channel exactly once and nobody else, whatever other clients do |
| NotifyRuns.ReleasedStaysDeaf | src/notification-registry.ts:115-121 | a client that was registered and released gets no notification again, whatever it does |
| Tenants.ScopesAreTenants | src/mtdd-notify-transport.ts:78-83 | two tids share a scope if and only if they are equal, or one is missing and the other is missing or `__global__` |
| Tenants.RefusedExactly | src/notify-policy.ts:77-91 | a command is refused if and only if its channel is empty or too long in UTF-8, or its payload is too long |
| Tenants.GoneExactly | src/listen-notify-lifecycle.ts:10-34 | a client is gone if and only if it gave a command and was released after it |
| Tenants.TenantsAreSeparate | src/listen-notify-handler.ts:21-67 | with colon-free tids, a NOTIFY under a tid is delivered once to each client not released after use whose last event about the channel under that tenant was a LISTEN, and to nobody for a channel of another tenant |
| NotifyRuns.ReleaseLeaksUnlisted | src/listen-notify-lifecycle.ts:20-33 | after a release the transport still holds the id if and only if there were subscriptions and none of them is listed |
| NotifyRuns.ReleaseLeaksExactly | src/listen-notify-lifecycle.ts:10-34 | after any run that is if and only if the client listens somewhere and every scope it listens under is empty or begins with a colon |
| Load.BuildInsertPlaceholders | src/postgres-select-merge.ts:64-76 | the placeholders number rows and columns consecutively and the next number follows the last |
| Load.GroupsSpell | src/postgres-select-merge.ts:64-76 | filling the placeholders from the flattened rows gives the rows |
| Load.BuildCsvPayload | src/postgres-select-merge.ts:99-105 | the payload is the specified text of the rows in column order |
| Load.PayloadReadsBack | src/postgres-select-merge.ts:78-105 | reading a payload by section 2 of RFC 4180 gives the rows, with empty text as NULL |
| Load.InsertRowsBatched | src/postgres-select-merge.ts:107-133 | the batches together append exactly the rows in column order |
| Load.InsertRowsViaUnnest | src/postgres-select-merge.ts:135-156 | the transposed arrays append exactly the rows in column order |
| Load.LoadRowsIntoTempTable | src/postgres-select-merge.ts:176-193 | whatever the thresholds, the table grows by the rows, blanked when COPY is chosen |
| Load.LoadExact | src/postgres-select-merge.ts:176-193 | the rows are loaded unchanged if and only if COPY is not used or no cell is empty text |
| LoadedMerge.LoadedRowsAreStored | src/postgres-select-merge.ts:176-193 | the rows that the re-run is given are what the loading strategies store, column by column |
| LoadedMerge.LoadingIsHarmless | src/postgres-select-merge.ts:213-288 | the merge with its loading step is the merge without it when COPY is not used or no shard returns empty text |
| LoadedMerge.StarLoadedExact | src/postgres-select-merge.ts:213-288 | `SELECT *` with ORDER BY, loading included, gives the direct answer if and only if COPY is not used or no cell is empty text |

## Left out

- SQL text of the rewrite: statements start as syntax trees; parsing, printing and the renaming of the temporary table (`src/select-order-rewrite.ts`) are not modelled, and the re-run reads the merged rows directly.
- Joins, WITH, OFFSET, GROUP BY aliases and positional ORDER BY; subqueries are refused inside aggregates and have no meaning elsewhere.
- User-defined aggregates, which the walkers take for ordinary functions, have no separate meaning.
- Rewrite.AggregateRewriteExact: is stated for queries without a computed column under the name of a column they read (Limits.ShadowedFilterLosesRows is one where that fails, depending on the data), with DISTINCT only where it drops nothing on the shards (DistinctCounts.DistinctAggregateExact says what happens otherwise), and with no aggregate inside a node that the walkers do not enter.
- OrderOnly.OrderRewriteExact: is stated for column lists and `*` without GROUP BY, for given data, and with the same exclusion of shadowing columns; Shadow.RowQueryExact is the statement for all data that has no such exclusion.
- Grouping.KeyQueryExact: has the same exclusion of shadowing columns, for given data; KeyShadow.KeyRowsExact is the statement without it.
- KeyShadow.KeyRowsExact: is stated without HAVING, and not for LIMIT 0 and 1, under which two groups that become one need not show.
- GroupRanks.GroupOrderExact: has the same exclusion of shadowing columns.
- Shadow.RowQueryExact: is stated for queries that one database answers; where it refuses one because ORDER BY reads a column the table does not have, a computed column of that name can make the re-run succeed.
- Mixing a lone `*` with other columns in one SELECT list.
- Merging over no shards at all, where the source returns an empty result without running the query.
- DistinctCounts.DistinctAggregateExact: is stated for queries without HAVING and LIMIT that show their groups and count rows, because other aggregates, as min and max, can be right although rows are dropped.
- GroupOrder.GroupsAreKept: says nothing about which groups LIMIT keeps, since the order they are taken in is lost (GroupRanks.RankingIsLost).
- Placement.MergedPlacement: is stated where DISTINCT drops nothing on the shards; where it does, the placement decides what is dropped.
- Column types of the temporary table (`src/postgres-select-merge.ts:11-43`): the model's table keeps values as they are, while the program stores a column of an unlisted type as text, which can sort differently on the re-run or refuse an aggregate such as sum.
- The index on the temporary table (`src/postgres-select-merge.ts:195-211`), which does not change answers.
- The values sent with Parse/Bind to a backend, error texts, authentication replies and the bytes of ReadyForQuery.
- Cleanup that overlaps a suspended dispatch (`src/proxy/session.ts:68-82` against `src/proxy/session.ts:341`): cleanup starts between dispatches.
- Pools.ClientsAreConserved: holds for cleanup between dispatches only, for that reason.
- Chunking.ChunkingIsHarmless: a stream counts as ended at a Terminate, a wrong password, a malformed body or a length below the protocol's minimum; when the reader goes on behind that point depends on the cut, what it then reads does not (Unread.RunInPlace).
- Unread.RunInPlace: says nothing once a message has an impossible length, whose bytes are cut off differently from chunk to chunk.
- StatusRuns.StatusExact: is about runs of query strings; cleanup, after which nothing is reported, leaves the letter as it is.
- Strings are sequences of characters and texts on the wire are their UTF-8 bytes; the encoding itself, lone surrogates and Unicode case rules are not modelled, and BigInt skips ASCII blanks only.
- Splitter.SplitUndoesJoin: is stated without comments, whose removal can join two words.
- Tagged dollar quotes: the scanner recognises only `$$`, and so does the model.
- Fractional numbers, infinities and NaN: the numbers of the model are the integers, those that no JavaScript number holds included, and a floating point cell that holds anything else decodes to opaque bytes. Integers of 10^21 and more, which JavaScript prints with an exponent, are printed in full.
- Dates, uuids and `decodeNumericBinary` (`src/pg-binary-decode.ts:75-115`): such cells decode to opaque bytes.
- Cells.CellRoundTripExact: covers the formats 0 and 1 of the protocol; other numbers are encoded as text and decoded as binary.
- FlexBuffers metadata of chunks, which is taken to decode to what was encoded.
- Redis behind the classification cache, and its asynchronous variants.
- The gRPC notification client, and interleaving of two notification commands at their awaits.
- The limit of 65535 parameters in one INSERT, and the `\.` line that COPY takes for the end of its data.
- Booleans, dates and objects in a CSV cell.
- HTTP lookup, TLS, logging, telemetry, environment parsing and pool configuration.
