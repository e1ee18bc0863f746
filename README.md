# codelogger-dao-mysql: the connection pool and the DAO interpreter

This project models the runtime core of codelogger-dao-mysql, a small MySQL data-access library, and proves properties of the model. The core has two parts.

- **The connection pool** (`DataSourcePool`). It validates its settings and opens connections through the MySQL driver. It keeps idle connections in a queue, with a last-used time per connection. It hands out and takes back connections. Two periodic sweeps run over it: one drops connections that fail a `SELECT 1` probe, and one evicts connections idle too long. A static operation closes the idle connections of every pool.
- **The DAO interpreter** (`MysqlDaoInterpreter`). It reads the entity and id class names from the DAO interface's generic type name. `findAll` maps every row of the entity's table onto a fresh entity, one field at a time. `count` reads `select count(*)`. `findOne`, `save` and both `delete`s are stubs.

Modules:

- `Results`: `Option` and `Result`.
- `JavaText`: the Java library text operations the core relies on:
  - `String.split` with its dropping of trailing empty pieces;
  - `indexOf`;
  - `trim`;
  - `Integer.valueOf`.
- `PoolSettings`: the pool constructor's checks, its defaults and the JDBC URL.
- `PoolSpec`: pure step functions for every pool operation (acquire, release, probe sweep, eviction sweep) and the lemmas about them.
- `ConnectionPool`: the pool as a class. Its fields `idle` and `lastUsed` are updated in place. Each method is proved equal to its step function and keeps the pool's invariant.
- `EntityMapping`: column reads through the six `ResultSet` accessors, the row-to-entity mapping as a function, and the mapping loop as a method proved equal to it.
- `DaoInterpreter`: type-name resolution, the constructor, the shared acquire, run and release shape of `findAll` and `count`, and the interpreter class.

Where the code's behaviour differs from what its documentation suggests, the model follows the code:

- The required-key check always tests the host key (`DataSourcePool.java:138`), so only a missing host raises `IllegalArgumentException`.
- A missing database name or user is not accepted either. The code copies it with `Properties.setProperty(key, null)`, which throws `NullPointerException` (`Configure` returns `NullSetting`).
- `closeAllConnections` closes idle connections but leaves them in the idle queues.
- On any exception in `findAll` or `count`, the connection taken from the pool is never given back.
- The eviction sweep removes a stale connection from the idle queue only. It neither closes it nor forgets its last-used time.
- `count` counts with `count(*)` over the whole table.
- An unknown entity class is caught and printed, so the interpreter is built with every reflective field null. The id segment is then never looked at.

External effects become parameters:

- The driver is `connect: string -> Option<Conn>`. `None` means `connect` threw or returned null.
- The `SELECT 1` probe is `probe: Conn -> bool`.
- The database is `query: string -> Option<seq<Row>>`. `None` means executing the statement threw.
- The clock is explicit `now`, `acquiredAt` and `releasedAt` arguments.
- The iteration order of the last-used hash map is the `order` argument.
- Class loading is one map from the names of the loadable classes to `LoadedClass` values: the table name of the class's `Entity` annotation, if it has one, and its declared fields. Entity and id classes are looked up in the same map, as `Class.forName` looks both up in one class path.

## Model

| member | source | states |
|---|---|---|
| PoolSettings.CheckRequired | src/main/java/org/codelogger/dao/mysql/DataSourcePool.java:135-142 | fails exactly when the host key is absent, whatever key it is asked about, with the message naming the asked key |
| PoolSettings.OnlyHostIsRequired | src/main/java/org/codelogger/dao/mysql/DataSourcePool.java:29-32 | the four required-key checks fail iff the host is missing, and then with the host key's message |
| PoolSettings.ParseLimits | src/main/java/org/codelogger/dao/mysql/DataSourcePool.java:43-47 | max size, min size and idle time parse (with defaults 10, 1, 1800000) iff each text is a valid Java int, and the results are those values; otherwise the `NumberFormatException` names the first text that fails, in the order max size, min size, idle time |
| PoolSettings.Configure | src/main/java/org/codelogger/dao/mysql/DataSourcePool.java:24-47 | null settings, a missing host, a missing name or a missing user each raise their own exception; with all three present it succeeds iff the limits parse, and otherwise fails with the limits' exception; on success the driver settings copy host, name and user, default the port and password, and the limits are the parsed ones |
| PoolSettings.ConfigureDefaults | src/main/java/org/codelogger/dao/mysql/DataSourcePool.java:34-47 | with only host, name and user given: port 3306, empty password, max 10, min 1, idle time 1800000 |
| PoolSettings.DefaultLimitsParse | src/main/java/org/codelogger/dao/mysql/DataSourcePool.java:43-47 | the default texts "10", "1" and "1800000" parse to 10, 1 and 1800000 |
| PoolSettings.JdbcUrl | src/main/java/org/codelogger/dao/mysql/DataSourcePool.java:87-89 | the URL starts with `jdbc:mysql://` and ends with the host; it is the host itself iff the host already carries the prefix, and otherwise exactly the prefix followed by the host (its length is the sum of both) |
| PoolSettings.JdbcUrlIdempotent | src/main/java/org/codelogger/dao/mysql/DataSourcePool.java:88-89 | the prefix is never added twice |
| JavaText.ParseInt | src/main/java/org/codelogger/dao/mysql/DataSourcePool.java:43-47 | `Integer.valueOf` accepts exactly the texts that are at least one digit, optionally after one `+` or `-`, whose value lies in the 32-bit range; the result is the digits' value, negated after `-` |
| JavaText.ParseShowInt | src/main/java/org/codelogger/dao/mysql/DataSourcePool.java:43-47 | `Integer.valueOf` of the decimal text of any 32-bit int gives that int back |
| JavaText.LeadingZerosValue | src/main/java/org/codelogger/dao/mysql/DataSourcePool.java:43-47 | leading zeros do not change the value of a digit string |
| JavaText.ParseSignedDigits | src/main/java/org/codelogger/dao/mysql/DataSourcePool.java:43-47 | a sign followed by digits whose value fits parses to that value, negated after `-` |
| JavaText.ParsePlusZeroPadded | src/main/java/org/codelogger/dao/mysql/DataSourcePool.java:43-47 | a text such as `+007` (plus sign, leading zeros, then the canonical digits of n) parses to n, as the canonical text does |
| JavaText.ParseMinusZeroPadded | src/main/java/org/codelogger/dao/mysql/DataSourcePool.java:43-47 | a text such as `-007` parses to -n, as the canonical `-7` does |
| JavaText.PaddedParsesLikeCanonical | src/main/java/org/codelogger/dao/mysql/DataSourcePool.java:43-47 | for every 32-bit int, its digits with an explicit sign and any number of leading zeros parse to the same result as its canonical decimal text |
| JavaText.IndexOf | src/main/java/org/codelogger/dao/mysql/MysqlDaoInterpreter.java:30 | -1 iff the character is absent; otherwise the position of its first occurrence |
| JavaText.DropTrailingEmpty | src/main/java/org/codelogger/dao/mysql/MysqlDaoInterpreter.java:28 | `split` keeps a prefix of the pieces, ending in a non-empty one, and drops only empty pieces |
| JavaText.Split | src/main/java/org/codelogger/dao/mysql/MysqlDaoInterpreter.java:28 | with no comma the type name is the only segment; otherwise the segments are the pieces between commas up to the last non-empty one, only empty pieces dropped; no segment contains a comma |
| JavaText.SplitJoin | src/main/java/org/codelogger/dao/mysql/MysqlDaoInterpreter.java:28 | splitting two or more comma-free pieces joined with commas, the last non-empty, gives the pieces back |
| JavaText.JoinPieces | src/main/java/org/codelogger/dao/mysql/MysqlDaoInterpreter.java:28 | cutting at the separator and joining back gives the original text |
| JavaText.PiecesJoin | src/main/java/org/codelogger/dao/mysql/MysqlDaoInterpreter.java:28 | joining separator-free pieces and cutting again gives the same pieces |
| JavaText.Trim | src/main/java/org/codelogger/dao/mysql/MysqlDaoInterpreter.java:33-34 | the result is a slice of the input with only white space (chars up to U+0020) around it, and neither end of it is white space |
| JavaText.TrimPadded | src/main/java/org/codelogger/dao/mysql/MysqlDaoInterpreter.java:33-34 | trimming removes exactly the space that follows the comma in front of an already trimmed name |
| JavaText.TrimIdempotent | src/main/java/org/codelogger/dao/mysql/MysqlDaoInterpreter.java:33-34 | trimming twice equals trimming once |
| PoolSpec.Acquire | src/main/java/org/codelogger/dao/mysql/DataSourcePool.java:79-96 | takes the head of a non-empty idle queue, leaving times alone; otherwise returns the driver's new connection, recording its time, or fails and changes nothing; the pool invariant is kept |
| PoolSpec.Release | src/main/java/org/codelogger/dao/mysql/DataSourcePool.java:101-113 | re-queues the connection at the tail with a fresh time iff the queue is below the maximum; otherwise nothing changes (the connection is closed); the invariant is kept |
| PoolSpec.ReleaseAllFills | src/main/java/org/codelogger/dao/mysql/DataSourcePool.java:101-113 | releasing a sequence of connections queues exactly as many as there is room for, in order, and closes the rest, in order |
| PoolSpec.ReleaseOneTooMany | src/main/java/org/codelogger/dao/mysql/DataSourcePool.java:103-112 | releasing max+1 connections into an empty pool keeps the first max and closes the last |
| PoolSpec.ProbedAppend | src/main/java/org/codelogger/dao/mysql/DataSourcePool.java:57-68 | one step of the probe sweep re-queues the connection iff it answers the probe |
| PoolSpec.ProbedSubsequence | src/main/java/org/codelogger/dao/mysql/DataSourcePool.java:55-69 | the probe sweep keeps connections in their queue order |
| PoolSpec.ProbedCounts | src/main/java/org/codelogger/dao/mysql/DataSourcePool.java:55-69 | after the probe sweep a connection that answers is queued as often as before, and one that does not is gone |
| PoolSpec.ProbedWellFormed | src/main/java/org/codelogger/dao/mysql/DataSourcePool.java:55-69 | the probe sweep keeps the pool invariant |
| PoolSpec.RemoveFirst | src/main/java/org/codelogger/dao/mysql/DataSourcePool.java:179 | removing from the queue takes out one occurrence of the connection, if any, and nothing else |
| PoolSpec.RemoveFirstAt | src/main/java/org/codelogger/dao/mysql/DataSourcePool.java:179 | the occurrence removed is the first one, and the other connections keep their order |
| PoolSpec.EvictedOnlyRemovesStale | src/main/java/org/codelogger/dao/mysql/DataSourcePool.java:168-182 | the eviction sweep leaves a subsequence of the queue and keeps every connection that is not both visited and stale |
| PoolSpec.EvictedLowerBound | src/main/java/org/codelogger/dao/mysql/DataSourcePool.java:175-176 | the eviction sweep never shrinks the queue below the minimum (or its own size when already smaller) |
| PoolSpec.EvictedAtMinimum | src/main/java/org/codelogger/dao/mysql/DataSourcePool.java:175-176 | a queue at or below the minimum is left as it is |
| PoolSpec.EvictedAtMostOnce | src/main/java/org/codelogger/dao/mysql/DataSourcePool.java:171-180 | when the map's keys are distinct, each connection loses at most one queue entry |
| PoolSpec.EvictedRemovesAllStale | src/main/java/org/codelogger/dao/mysql/DataSourcePool.java:171-180 | on a duplicate-free queue with no more stale connections than the minimum allows, no visited stale connection remains |
| PoolSpec.EvictedWellFormed | src/main/java/org/codelogger/dao/mysql/DataSourcePool.java:168-182 | the eviction sweep keeps the pool invariant |
| ConnectionPool.DataSourcePool.constructor | src/main/java/org/codelogger/dao/mysql/DataSourcePool.java:24-47 | the pool keeps the accepted settings and limits, starting with an empty queue and no times |
| ConnectionPool.DataSourcePool.GetConnection | src/main/java/org/codelogger/dao/mysql/DataSourcePool.java:79-96 | the connection handed out and the new state are `Acquire` of the old state, with the driver called on the JDBC URL of the host |
| ConnectionPool.DataSourcePool.FreeConnection | src/main/java/org/codelogger/dao/mysql/DataSourcePool.java:101-113 | whether the connection was kept and the new state are `Release` of the old state |
| ConnectionPool.DataSourcePool.ProbeIdleConnections | src/main/java/org/codelogger/dao/mysql/DataSourcePool.java:53-70 | the queue becomes the probed queue (head polled and re-added as many times as the queue's starting size); times are unchanged |
| ConnectionPool.DataSourcePool.EvictIdleConnections | src/main/java/org/codelogger/dao/mysql/DataSourcePool.java:168-182 | given the map's iteration order, which lists each key once, the queue becomes the eviction fold over that order; the map is unchanged |
| ConnectionPool.CloseAllConnections | src/main/java/org/codelogger/dao/mysql/DataSourcePool.java:118-133 | closes the idle queues of all registered pools, pool by pool, in queue order |
| ConnectionPool.AllIdleCoversEveryPool | src/main/java/org/codelogger/dao/mysql/DataSourcePool.java:122-131 | every idle connection of every registered pool is closed |
| EntityMapping.KindOf | src/main/java/org/codelogger/dao/mysql/MysqlDaoInterpreter.java:63-77 | a field is read iff it is a String or a primitive or boxed int, long, boolean, byte or short; only String reads through `getString`, and every other field through the accessor that returns its own primitive type |
| EntityMapping.BoxedReadsLikePrimitive | src/main/java/org/codelogger/dao/mysql/MysqlDaoInterpreter.java:65-76 | a boxed type uses the same accessor as its primitive |
| EntityMapping.ReadColumn | src/main/java/org/codelogger/dao/mysql/MysqlDaoInterpreter.java:65-78 | a missing column fails; SQL NULL gives null through `getString` and the accessor's zero or false through the others; a stored value of the accessor's kind is returned as it is, and one of another kind fails |
| EntityMapping.MapRows | src/main/java/org/codelogger/dao/mysql/MysqlDaoInterpreter.java:55-83 | succeeds iff every row maps, and then gives one entity per row, in row order |
| EntityMapping.MapFieldsFailureStays | src/main/java/org/codelogger/dao/mysql/MysqlDaoInterpreter.java:57-86 | the first failing field read decides the row's failure |
| EntityMapping.MapRowsFailureStays | src/main/java/org/codelogger/dao/mysql/MysqlDaoInterpreter.java:55-86 | the first failing row decides the result's failure |
| EntityMapping.MapFieldsSpec | src/main/java/org/codelogger/dao/mysql/MysqlDaoInterpreter.java:56-81 | a row maps iff every settable field's column can be read; then final fields, fields of other types and null strings stay unset, every other field holds its column's value, and nothing else is set |
| EntityMapping.MapResultSet | src/main/java/org/codelogger/dao/mysql/MysqlDaoInterpreter.java:55-87 | the nested mapping loop, with its early exit on a failing read, computes `MapRows` |
| EntityMapping.CountFromRows | src/main/java/org/codelogger/dao/mysql/MysqlDaoInterpreter.java:120 | no row gives 0; a first row without `ecount` fails; SQL NULL gives 0; a stored long is returned |
| DaoInterpreter.EntityClassName | src/main/java/org/codelogger/dao/mysql/MysqlDaoInterpreter.java:30 | the text after the first `<`, or the whole segment when it has none |
| DaoInterpreter.IdClassName | src/main/java/org/codelogger/dao/mysql/MysqlDaoInterpreter.java:33-34 | an empty segment throws; otherwise the segment without its last character, trimmed |
| DaoInterpreter.ResolveTypes | src/main/java/org/codelogger/dao/mysql/MysqlDaoInterpreter.java:28-37 | no segment throws; an unknown entity class (first segment after `<`) leaves every field null; a loaded class without `Entity` annotation throws; an annotated one with no second segment, or an empty one, throws; otherwise the entity class, its table name and its fields are set, and the id class (second segment without `>`, trimmed) is set iff it can be loaded |
| DaoInterpreter.Construct | src/main/java/org/codelogger/dao/mysql/MysqlDaoInterpreter.java:24-38 | settings faults come first; then a class with no generic interface fails; otherwise it succeeds iff the first interface's type name resolves, with that resolution or its fault |
| DaoInterpreter.TypeNamesRoundTrip | src/main/java/org/codelogger/dao/mysql/MysqlDaoInterpreter.java:27-34 | for `Raw<Entity, Id>` with comma-free names and a trimmed id, the two segments give back exactly `Entity` and `Id` |
| DaoInterpreter.ResolveGenericTypeName | src/main/java/org/codelogger/dao/mysql/MysqlDaoInterpreter.java:27-37 | for `Raw<Entity, Id>` with a loadable annotated `Entity`, construction sets that class, its table and fields, and sets `Id` exactly when it is loadable |
| DaoInterpreter.UnknownEntityClassTolerated | src/main/java/org/codelogger/dao/mysql/MysqlDaoInterpreter.java:29-37 | an unknown entity class constructs even when the type name has no id segment |
| DaoInterpreter.UseConnection | src/main/java/org/codelogger/dao/mysql/MysqlDaoInterpreter.java:50-93 | the call succeeds iff a connection was obtained and the statement succeeded; only then is the connection released; no connection, a failed statement and a failed mapping each give their own fault; on failure the state is the one right after acquiring; the invariant is kept |
| DaoInterpreter.EntitiesOf | src/main/java/org/codelogger/dao/mysql/MysqlDaoInterpreter.java:52-91 | a failed query stays failed; otherwise the rows' mapping, with a mapping failure as `DataAccessException` |
| DaoInterpreter.CountOf | src/main/java/org/codelogger/dao/mysql/MysqlDaoInterpreter.java:119-123 | a failed query stays failed; a count that cannot be read is a `MysqlSqlException`; otherwise the count read from the rows |
| DaoInterpreter.UseConnectionRotates | src/main/java/org/codelogger/dao/mysql/MysqlDaoInterpreter.java:50-93 | a successful call on a pool with idle connections moves the head to the tail with the release time |
| DaoInterpreter.UseConnectionLeaksOnFailure | src/main/java/org/codelogger/dao/mysql/MysqlDaoInterpreter.java:85-92 | a failed call loses the idle connection it took |
| DaoInterpreter.FindAllOnePerRow | src/main/java/org/codelogger/dao/mysql/MysqlDaoInterpreter.java:55-83 | a successful `findAll` returns one entity per row, each the mapping of its row |
| DaoInterpreter.MysqlDaoInterpreter.constructor | src/main/java/org/codelogger/dao/mysql/MysqlDaoInterpreter.java:24-32 | a fresh, empty pool built from the accepted settings, and the entity's table name and fields |
| DaoInterpreter.MysqlDaoInterpreter.FindOne | src/main/java/org/codelogger/dao/mysql/MysqlDaoInterpreter.java:40-44 | returns null |
| DaoInterpreter.MysqlDaoInterpreter.FindAll | src/main/java/org/codelogger/dao/mysql/MysqlDaoInterpreter.java:46-94 | result and new pool state are `UseConnection` of `select * from <table>` mapped by the entity's fields |
| DaoInterpreter.MysqlDaoInterpreter.Save | src/main/java/org/codelogger/dao/mysql/MysqlDaoInterpreter.java:96-100 | returns null |
| DaoInterpreter.MysqlDaoInterpreter.Delete | src/main/java/org/codelogger/dao/mysql/MysqlDaoInterpreter.java:102-105 | does nothing |
| DaoInterpreter.MysqlDaoInterpreter.DeleteById | src/main/java/org/codelogger/dao/mysql/MysqlDaoInterpreter.java:107-110 | does nothing |
| DaoInterpreter.MysqlDaoInterpreter.Count | src/main/java/org/codelogger/dao/mysql/MysqlDaoInterpreter.java:112-126 | result and new pool state are `UseConnection` of `select count(*) as ecount from <table>`, read as the first row's `ecount` or 0 |

## Left out

- The two `java.util.Timer` schedules (the 30-second probe and the 5-minute eviction), and all concurrency. The sweeps are modelled as operations a caller invokes. Interleavings with `getConnection` and `freeConnection` are not modelled.
- The eviction sweep's outer loop over every registered pool. `EvictIdleConnections` models the sweep of one pool.
- EvictIdleConnections: uses one `now` for the whole sweep, where the source reads the clock once per map entry.
- The pool registry (`dataSourcePools`) is not a global. `CloseAllConnections` takes the registered pools as a sequence, and the time of registration is not modelled.
- Closing a connection has no modelled effect beyond being reported. `close()` failures are only logged in the source.
- Logging is not modelled.
- ReadColumn: a stored value of another kind than the accessor's is a read failure (`NotConvertible`). The MySQL driver converts between some column types instead; those conversions are not modelled.
- MapResultSet: failures of `ResultSet.next()`, `ResultSet.close()` and `Statement.close()` are not modelled. In the source the first two become `DataAccessException` and the last becomes `MysqlSqlException`.
- Reflection is replaced by explicit field descriptors: `newInstance`, `setAccessible`, `Field.set`, and the order of `getDeclaredFields`, which is taken as declaration order.
- Interpreters whose entity class did not resolve are not modelled as objects. `ResolveTypes` returns their all-null shape. Their `findAll` and `count` are not modelled: those send SQL ending in `from null`, which the database normally rejects, and when rows do come back, the `NullPointerException` of `entityClass.newInstance()` is caught by `findAll`'s handler and rethrown as a `DataAccessException`.
- ParseInt: accepts ASCII digits only, where `Integer.valueOf` also accepts other Unicode decimal digits. A leading `+` is accepted, as in Java.
- The interpreter's `executeByMethod` and the `MysqlDaoConstructFactory` proxy are not part of this model.
- The query-annotated methods of a DAO interface are not part of this model.
