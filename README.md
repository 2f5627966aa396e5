# Record access layer of multimodal-db, modelled in Dafny

multimodal-db serves "users", "transactions" and "alerts" over HTTP. Each kind
of record lives in a different backing store. This project models the code
that validates requests and reads or writes those stores:

- **Postgres users** (`PostgresUsers`, `postgres_users.dfy`). Create has a
  duplicate-name pre-check. List treats an empty table as an error. Find,
  update and delete go by UUID, and update is a partial merge. A user's skill
  list can be edited: append a validated skill, or remove one with the
  original filter loop. That loop stops after the first skill it keeps.
- **MySQL users** (`MysqlUsers`, `mysql_users.dfy`). The same create, list,
  find, update and delete. There are no skill operations and the
  duplicate-name error text differs.
- **Transactions in the embedded key-value store** (`BadgerTxns`,
  `badger_txns.dfy`). Create validates two fields and stamps the record with
  an id and the current time. "All" lists every record and "recent" lists
  those inside a window of minutes. Both list in the iterator's key order.
- **Alerts in Redis** (`RedisAlerts`, `redis_alerts.dfy`). The same shape as
  transactions. Listing fetches the value of every key in the `KEYS *`
  reply, and a missing value fails the whole listing.

Shared modules: `Outcomes` (`Option` and `Result`; an error carries the exact
message text the Go code returns), `Search` (the first matching row of a
table, the values selected by a list of keys, key enumeration and ascending
key order) and `Window` (Go's `int64`, its wrap-around, the window cutoff and
the window filter `Since`).

How the stores are modelled:

- A users table is a sequence of rows in primary-key order. `First()` is the
  first matching row. `Save` replaces that row, `Create` appends and `Delete`
  removes it.
- The key-value stores are classes holding a `map` from key to record.
  `Set` overwrites the entry under its key.
- `uuid.New()` and `time.Now().Unix()` are method parameters (`id`,
  `skillId`, `now`).
- The badger iterator's order is a parameter `scan`. It must list every
  stored key once, in ascending byte order.
- The Redis `KEYS *` reply is a parameter `keys` and has no precondition.
  A key with no value when it is fetched is the failed-fetch path.

The skill-removal loop is modelled as written: the user keeps at most one
skill, the first whose UUID differs from the requested one.
`FirstOtherIsFilterIff` states exactly when this matches a full filter.

## Model

| member | source | states |
|---|---|---|
| `Search.FirstIndex` | models/postgres/user.go:299 | the index returned, if any, is the first row satisfying the query; `None` means no row satisfies it |
| `Search.Gather` | models/badger/txn.go:103-123 | one value per key, in key order, each being the value stored under that key |
| `Search.AscendingUnique` | models/badger/txn.go:97-103 | two ascending enumerations of the same key set are the same sequence, so the iterator's visiting order is fixed by the stored keys |
| `Search.GatherEnumeration` | models/badger/txn.go:103-136 | scanning every stored key once yields as many records as the store holds and exactly the stored records; the scan is empty iff the store is |
| `Window.Wrap` | models/badger/txn.go:153 | Go `int64` wrap-around leaves every in-range result unchanged |
| `Window.Cutoff` | models/badger/txn.go:152-153 | the exact cutoff instant; a non-negative window starts no later than `now`, a non-positive one no earlier |
| `Window.CutoffAsWritten` | models/badger/txn.go:153 | the cutoff as the Go code computes it (wrapping `int64` multiply, then wrapping subtract) is the exact cutoff taken modulo 2^64 |
| `Window.CutoffAsWrittenExact` | models/badger/txn.go:153 | whenever `now - minutes*60` fits in an `int64`, the wrapping Go computation gives exactly the intended cutoff |
| `Window.AsWrittenWindowShrinks` | models/badger/txn.go:153 | concrete inputs where one more minute moves the as-written cutoff from before `now` to after it |
| `Window.Since` | models/badger/txn.go:176-178 | the window holds exactly the records stamped at or after the cutoff, and never more records than the input |
| `Window.SinceNarrows` | models/badger/txn.go:176 | a narrower window is the wider window filtered again: same records, same order |
| `Window.WindowGrowsWithMinutes` | models/badger/txn.go:153 | raising `minutes` never removes a record from the window (multiset inclusion) |
| `Window.SincePermutation` | models/redis/alerts.go:146-161 | the window, as a multiset, does not depend on the order in which records are visited |
| `PostgresUsers.ByUuid` | models/postgres/user.go:285-309 | empty UUID gives "invalid user [UUID]"; otherwise success iff some row has that UUID, else "user not found"; success selects the first such row |
| `PostgresUsers.ByName` | models/postgres/user.go:311-333 | empty name gives "invalid user [Name]"; otherwise success iff some row has that name, else "user not found" |
| `PostgresUsers.Merge` | models/postgres/user.go:157-162 | UUID and skills are kept; each of name and location becomes the request's value iff that is non-empty; a merge never empties a non-empty field |
| `PostgresUsers.MergeIdempotent` | models/postgres/user.go:145-171 | applying the same update twice gives the same user as applying it once |
| `PostgresUsers.FirstOther` | models/postgres/user.go:264-270 | the kept skill list has at most one entry: the first skill whose UUID differs from the requested one, or nothing if every skill matches |
| `PostgresUsers.WithoutSkill` | models/postgres/user.go:264-270 | reference filter: exactly the skills whose UUID differs from the requested one |
| `PostgresUsers.FirstOtherHeadOfFilter` | models/postgres/user.go:264-272 | the removal loop keeps only the first element of what the full filter keeps |
| `PostgresUsers.FirstOtherIsFilterIff` | models/postgres/user.go:264-272 | the removal loop agrees with the full filter iff at most one skill has a different UUID |
| `PostgresUsers.UserStore.CreateUser` | models/postgres/user.go:88-115 | name already stored gives "name already in play", then empty name "invalid [name]", then empty location "invalid [location]", and the table is unchanged; on success the fresh UUID, the request's name and location and no skills are appended as one row |
| `PostgresUsers.UserStore.GetAllUsers` | models/postgres/user.go:117-132 | "no users yet" iff the table is empty; a non-empty table is always listed, and the list is every row |
| `PostgresUsers.UserStore.FindUserByID` | models/postgres/user.go:134-143 | the lookup errors of `ByUuid`; success iff a row has the UUID, returning the first such row |
| `PostgresUsers.UserStore.UpdateUser` | models/postgres/user.go:145-171 | lookup errors first, then "nothing to update" when name and location are both empty, with the table unchanged; otherwise only the found row is replaced, by its merge with the request |
| `PostgresUsers.UserStore.DeleteUser` | models/postgres/user.go:173-186 | lookup errors leave the table unchanged; otherwise exactly the found row is removed and the others keep their order |
| `PostgresUsers.UserStore.AddSkill` | models/postgres/user.go:188-234 | "invalid [uuid]", "invalid [type]", "invalid [level]" (level below 1), then "user not found", in that order, with the table unchanged; otherwise exactly one skill with the fresh UUID, type and level is appended to that user's skills, earlier skills untouched |
| `PostgresUsers.UserStore.RemoveSkill` | models/postgres/user.go:236-280 | "invalid user [uuid]", "invalid skill [uuid]", "user not found", in that order; otherwise the user's skills become `FirstOther` of the old ones (an unknown skill UUID is not an error) and nothing else changes |
| `PostgresUsers.CreateThenFind` | models/postgres/user.go:107-143 | a user found by a fresh UUID right after creating it equals the created record |
| `PostgresUsers.CreateSameNameTwice` | models/postgres/user.go:88-94 | after a successful create, a second create with the same name fails with "name already in play" and adds nothing |
| `PostgresUsers.AddThenRemoveSkill` | models/postgres/user.go:188-280 | adding a skill to a user without skills and removing it by its UUID leaves the user without skills |
| `MysqlUsers.ByUuid` | models/mysql/user.go:188-210 | empty UUID gives "invalid user [UUID]"; otherwise success iff some row has that UUID, else "user not found"; success selects the first such row |
| `MysqlUsers.ByName` | models/mysql/user.go:212-234 | empty name gives "invalid user [Name]"; otherwise success iff some row has that name, else "user not found" |
| `MysqlUsers.Merge` | models/mysql/user.go:155-160 | UUID and skills are kept; each of name and location becomes the request's value iff that is non-empty; a merge never empties a non-empty field |
| `MysqlUsers.UserStore.CreateUser` | models/mysql/user.go:87-113 | name already stored gives "name already in use", then "invalid [name]", then "invalid [location]", and the table is unchanged; on success exactly one row with the fresh UUID and no skills is appended |
| `MysqlUsers.UserStore.GetAllUsers` | models/mysql/user.go:115-130 | "no users yet" iff the table is empty; a non-empty table is always listed, and the list is every row |
| `MysqlUsers.UserStore.FindUserByID` | models/mysql/user.go:132-141 | the lookup errors of `ByUuid`; success iff a row has the UUID, returning the first such row |
| `MysqlUsers.UserStore.UpdateUser` | models/mysql/user.go:143-168 | lookup errors, then "nothing to update", with the table unchanged; otherwise only the found row is replaced, by its merge with the request |
| `MysqlUsers.UserStore.DeleteUser` | models/mysql/user.go:170-183 | an empty or unknown UUID fails and removes nothing; otherwise exactly the found row is removed |
| `MysqlUsers.DeleteThenFind` | models/mysql/user.go:170-209 | when UUIDs are unique, a user cannot be found after it was deleted |
| `BadgerTxns.ScanOrder` | models/badger/txn.go:97-103 | the iterator visits exactly the stored keys, each once, in ascending byte order |
| `BadgerTxns.ScanOrderUnique` | models/badger/txn.go:97-103 | two scans of the same store visit the same keys in the same order |
| `BadgerTxns.TxnStore.constructor` | models/badger/txn.go:39-40 | a freshly created, empty store, in which every record is stored under its own UUID |
| `BadgerTxns.TxnStore.CreateTxn` | models/badger/txn.go:62-89 | "invalid [item]", then "invalid [code]", writing nothing; on success the record gets the fresh UUID and `now`, is stored under that UUID, and the store keeps every record under its own UUID |
| `BadgerTxns.TxnStore.GetAllTxns` | models/badger/txn.go:91-137 | "no transactions yet" iff the store is empty and success iff it is not; the result is one record per stored entry, in scan order, each record's UUID being its key |
| `BadgerTxns.TxnStore.GetRecentTxns` | models/badger/txn.go:139-198 | the records of the full scan, in scan order, filtered to timestamps at or after `now - minutes*60`; "no recent transactions" iff that filter is empty, and a non-empty filter is always returned |
| `BadgerTxns.RecentTxnsExact` | models/badger/txn.go:163-185 | over a full scan, a Txn is in the recent result iff it is stored and its timestamp is at or after the cutoff |
| `BadgerTxns.RecentTxnsGrowWithMinutes` | models/badger/txn.go:152-185 | raising `minutes` never removes a transaction from the recent result |
| `BadgerTxns.RecentTxnsAsWrittenShrink` | models/badger/txn.go:153 | with the int64 cutoff as written, a transaction stamped `now` drops out when the window grows by one minute |
| `RedisAlerts.AlertStore.constructor` | models/redis/alerts.go:29 | a freshly created, empty database, in which every alert is stored under its own UUID |
| `RedisAlerts.AlertStore.CreateAlert` | models/redis/alerts.go:59-90 | "invalid [title]", then "invalid [body]", writing nothing; on success the alert gets the fresh UUID and `now` and is stored under that UUID |
| `RedisAlerts.AlertStore.GetAllAlerts` | models/redis/alerts.go:92-122 | "no alerts yet" on an empty key list, before any fetch; any key without a value fails with no partial result; otherwise exactly one stored alert per key, each alert's UUID being its key |
| `RedisAlerts.AlertStore.GetRecentAlerts` | models/redis/alerts.go:124-169 | any key without a value fails with no partial result; otherwise exactly the fetched alerts at or after the cutoff, "no recent alerts" iff there are none, and a non-empty window is always returned |
| `RedisAlerts.AllAlertsWhenKeysCurrent` | models/redis/alerts.go:96-121 | when the key list is exactly the stored keys, every fetch succeeds and the result is each stored alert once; it is empty iff the store is |
| `RedisAlerts.RecentAlertsUnordered` | models/redis/alerts.go:140-161 | swapping two keys of the reply leaves the recent alerts unchanged as a multiset |
| `RedisAlerts.RecentAlertsGrowWithMinutes` | models/redis/alerts.go:137-161 | raising `minutes` never removes an alert from the recent result |
| `RedisAlerts.RecentAlertsAsWrittenShrink` | models/redis/alerts.go:138 | with the int64 cutoff as written, an alert stamped `now` drops out when the window grows by one minute |

## Findings

| source | as written | input that shows it | evidently intended | confidence | as-written member | corrected member |
|---|---|---|---|---|---|---|
| models/badger/txn.go:153 | `cutoffTime := currentTime - requestBody.Minutes*60` on `int64`, wrapping on overflow | `now` = 1700000000, `minutes` = 153722867309246263 keeps a transaction stamped `now`; `minutes` one larger drops it | the cutoff `minutes` minutes before `now`, so a longer window never drops a record | not executed | `BadgerTxns.RecentTxnsAsWrittenShrink` | `Window.Cutoff` (monotonicity proved in `BadgerTxns.RecentTxnsGrowWithMinutes`) |
| models/redis/alerts.go:138 | the same `int64` cutoff computation for alerts | the same inputs, for an alert stamped `now` | as above | not executed | `RedisAlerts.RecentAlertsAsWrittenShrink` | `Window.Cutoff` (monotonicity proved in `RedisAlerts.RecentAlertsGrowWithMinutes`) |

The recent-record methods use the exact cutoff `Window.Cutoff`.
`Window.CutoffAsWrittenExact` proves it equals the Go computation whenever
`now - minutes*60` fits in an `int64`. So the model departs from the code only
on inputs that overflow.

## Left out

- `ConnectDB` in every store: environment variables, opening connections,
  migrations and fatal exits.
- JSON decoding of request bodies and stored values. Requests are
  already-decoded records, so the "error parsing JSON", "invalid request
  body", "failed to deserialize" and "failed to serialize" paths are not
  modelled. The skills column's `Value`/`Scan` is not modelled either.
- Backend failures: "error retrieving user", failing `Create`, `Save` and
  `Delete`, "failed to save transaction", "failed to fetch transactions",
  "failed to save alert" and "failed to fetch keys". These come from the
  driver, not from this code. In particular, a backend error during the
  by-name pre-check lets CreateUser go ahead in the code; the model always
  answers the pre-check.
- Redis fetch errors other than a missing value (network errors). A key
  whose value is gone is the modelled failed-fetch path.
- gorm bookkeeping: the `gorm.Model` columns, soft deletion, `RowsAffected`,
  and the unique index on `name`. In the code, an update or create that
  breaks name uniqueness is refused by the database. The model does not
  refuse it, so name uniqueness is not an invariant of the model.
- Name and UUID matching in both SQL stores is exact string equality. The
  code's `WHERE name = ?` and `WHERE uuid = ?` queries compare under the
  database's collation, and MySQL's default collations fold case (so
  "ALICE" would clash with a stored "alice"). Collation folding is not
  modelled.
- `BadgerTxns.TxnStore.GetRecentTxns`: filters with the exact cutoff
  `Window.Cutoff`, not the wrapping `int64` computation of
  models/badger/txn.go:153. The two agree whenever `now - minutes*60` fits
  in an `int64` (`Window.CutoffAsWrittenExact`); on overflowing inputs the
  model returns the intended window (see "## Findings").
- `RedisAlerts.AlertStore.GetRecentAlerts`: the same exact cutoff in place
  of the wrapping computation of models/redis/alerts.go:138.
- SQL result order: `GetAllUsers` returns rows in primary-key order. The
  code's query has no `ORDER BY`, so its order is up to the database.
- Concurrency. The check-then-create and fetch-then-save races are not
  modelled. Operations are sequential.
- The older `models/postgres/postgres.go` is not part of this model. It
  redeclares `User`, `CreateUser` and `GetAllUsers` in the same package and
  cannot build together with `models/postgres/user.go`.
- HTTP routing, response writing and server start-up (`routes/`,
  `handlers/`, `util/`, `main.go`).
- `uuid.New()` and `time.Now()` are inputs. The model does not generate
  ids or read the clock.
- `RedisAlerts.RecentAlertsUnordered`: only a swap of two keys is covered.
  A general reordering is a sequence of swaps, and that composition is not
  stated as a lemma.
