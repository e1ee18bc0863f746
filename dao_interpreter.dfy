/**
 * The data-access interpreter for one entity type: how its constructor reads the
 * entity and id class names from the DAO interface's generic type name, and what
 * `findAll`, `count` and the stub operations do with the pool and the database.
 *
 * Class loading is a lookup in `classes` (every loadable class by name, with its
 * `Entity` annotation's table name, if any, and its declared fields); the database is
 * `query`, from SQL text to the result rows (`None` when executing it throws).
 */
module DaoInterpreter {
  import opened Results
  import opened JavaText
  import opened PoolSettings
  import opened PoolSpec
  import opened ConnectionPool
  import opened EntityMapping

  // ---------------------------------------------------------------------------
  // construction

  /** The text after the first '<' (`substring(indexOf("<") + 1)`); all of it when there is no '<'. */
  function EntityClassName(segment: string): (r: string)
    ensures '<' !in segment ==> r == segment
    ensures '<' in segment ==>
      var k := |segment| - |r| - 1;
      0 <= k && segment == segment[..k] + "<" + r && '<' !in segment[..k]
  {
    var k := IndexOf(segment, '<');
    assert k >= 0 ==> segment == segment[..k] + "<" + segment[k + 1..];
    segment[k + 1..]
  }

  /** The id segment without its last character (the closing '>'), trimmed; `None` is the
      `StringIndexOutOfBoundsException` of an empty segment. */
  function IdClassName(segment: string): (r: Option<string>)
    ensures r.None? <==> segment == []
    ensures r.Some? ==> r.value == Trim(segment[..|segment| - 1])
    ensures r.Some? ==> |r.value| < |segment|
  {
    if segment == [] then None else Some(Trim(segment[..|segment| - 1]))
  }

  /** A class as `Class.forName` finds it: the table name of its `Entity` annotation
      (`None` when it has none) and its declared fields. */
  datatype LoadedClass = LoadedClass(tableName: Option<string>, fields: seq<FieldDescriptor>)

  /** The interpreter's reflective fields after construction; `None` is a field left null. */
  datatype Shape = Shape(entityClass: Option<string>, tableName: Option<string>,
                         fields: Option<seq<FieldDescriptor>>, idClass: Option<string>)

  /** The exceptions that escape the interpreter's constructor. */
  datatype ConstructFault =
    | BadSettings(cause: ConfigFault)   // thrown by the pool's constructor
    | IndexOutOfBounds                  // no generic interface, a missing comma segment, or an empty id segment
    | MissingEntityAnnotation           // NullPointerException from getAnnotation(Entity.class)

  /** Every reflective field left null. */
  const Unresolved := Shape(None, None, None, None)

  /**
   * The constructor's body after the pool is made; `classes` holds every class
   * `Class.forName` can load, by name. The type name is split at commas; the entity
   * class is named by the first segment after its '<', the id class by the second
   * without its '>', trimmed. A `ClassNotFoundException` is caught: when the entity
   * class is unknown every reflective field stays null and the id segment is never
   * looked at; when only the id class is unknown, the id class alone stays null.
   */
  function ResolveTypes(typeName: string, classes: map<string, LoadedClass>): (r: Result<Shape, ConstructFault>)
    ensures var parts := Split(typeName, ',');
      parts == [] ==> r == Failure(IndexOutOfBounds)
    ensures var parts := Split(typeName, ',');
      parts != [] && EntityClassName(parts[0]) !in classes ==> r == Success(Unresolved)
    ensures var parts := Split(typeName, ',');
      parts != [] && EntityClassName(parts[0]) in classes && classes[EntityClassName(parts[0])].tableName.None? ==>
        r == Failure(MissingEntityAnnotation)
    ensures var parts := Split(typeName, ',');
      parts != [] && EntityClassName(parts[0]) in classes && classes[EntityClassName(parts[0])].tableName.Some? ==>
        (r.Success? <==> |parts| >= 2 && parts[1] != []) && (r.Failure? ==> r.error == IndexOutOfBounds)
    ensures var parts := Split(typeName, ',');
      r.Success? && r.value.entityClass.Some? ==>
        var name := EntityClassName(parts[0]);
        && r.value.entityClass == Some(name) && name in classes
        && r.value.tableName == classes[name].tableName && r.value.tableName.Some?
        && r.value.fields == Some(classes[name].fields)
        && |parts| >= 2 && IdClassName(parts[1]).Some?
        && (r.value.idClass.Some? <==> IdClassName(parts[1]).value in classes)
        && (r.value.idClass.Some? ==> r.value.idClass == IdClassName(parts[1]))
    ensures var parts := Split(typeName, ',');
      parts != [] && EntityClassName(parts[0]) in classes && r.Success? ==>
        r.value.entityClass == Some(EntityClassName(parts[0]))
    ensures r.Success? && r.value.entityClass.None? ==> r.value == Unresolved
  {
    var parts := Split(typeName, ',');
    if |parts| == 0 then Failure(IndexOutOfBounds)
    else
      var entityName := EntityClassName(parts[0]);
      if entityName !in classes then Success(Unresolved)
      else
        var cls := classes[entityName];
        if cls.tableName.None? then Failure(MissingEntityAnnotation)
        else if |parts| < 2 then Failure(IndexOutOfBounds)
        else match IdClassName(parts[1])
          case None => Failure(IndexOutOfBounds)
          case Some(idName) =>
            Success(Shape(Some(entityName), cls.tableName, Some(cls.fields),
                          if idName in classes then Some(idName) else None))
  }

  /**
   * The whole constructor: the pool's settings are checked first; then the first
   * of the DAO class's generic interfaces (by its type name) is read, which throws
   * when the class implements none.
   */
  function Construct(settings: Option<Properties>, interfaces: seq<string>, classes: map<string, LoadedClass>)
    : (r: Result<(PoolConfig, Shape), ConstructFault>)
    ensures Configure(settings).Failure? ==> r == Failure(BadSettings(Configure(settings).error))
    ensures Configure(settings).Success? && interfaces == [] ==> r == Failure(IndexOutOfBounds)
    ensures r.Success? ==>
      interfaces != [] && Configure(settings) == Success(r.value.0)
      && ResolveTypes(interfaces[0], classes) == Success(r.value.1)
    ensures Configure(settings).Success? && interfaces != [] ==>
      (r.Success? <==> ResolveTypes(interfaces[0], classes).Success?)
    ensures Configure(settings).Success? && interfaces != [] && ResolveTypes(interfaces[0], classes).Failure? ==>
      r == Failure(ResolveTypes(interfaces[0], classes).error)
  {
    match Configure(settings)
    case Failure(e) => Failure(BadSettings(e))
    case Success(config) =>
      if interfaces == [] then Failure(IndexOutOfBounds)
      else match ResolveTypes(interfaces[0], classes)
        case Failure(e) => Failure(e)
        case Success(shape) => Success((config, shape))
  }

  /** The generic interface's type name as Java prints it: `Dao<Entity, Id>`. */
  function GenericTypeName(raw: string, entity: string, id: string): string {
    raw + "<" + entity + ", " + id + ">"
  }

  /**
   * Reading the names back: the first comma segment, after its first '<', is the
   * entity class name, and the second, without its '>' and trimmed, is the id
   * class name, whenever neither name contains a comma, the raw interface name
   * has no '<', and the id name does not start or end with white space.
   */
  lemma TypeNamesRoundTrip(raw: string, entity: string, id: string)
    requires ',' !in raw && '<' !in raw && ',' !in entity && ',' !in id
    requires id != [] && !IsJavaSpace(id[0]) && !IsJavaSpace(id[|id| - 1])
    ensures var parts := Split(GenericTypeName(raw, entity, id), ',');
      |parts| == 2 && EntityClassName(parts[0]) == entity && IdClassName(parts[1]) == Some(id)
  {
    var first := raw + "<" + entity;
    var second := " " + id + ">";
    var s := GenericTypeName(raw, entity, id);
    assert s == Join([first, second], ',');
    assert ',' !in first;
    assert ',' !in second;
    PiecesJoin([first, second], ',');
    assert ',' in s by { assert s[|first|] == ','; }
    assert Split(s, ',') == [first, second];
    assert IndexOf(first, '<') == |raw| by {
      assert first[|raw|] == '<';
      assert first[..|raw|] == raw;
    }
    assert first[|raw| + 1..] == entity;
    assert second[..|second| - 1] == " " + id;
    TrimPadded(id);
  }

  /**
   * Construction on the type name Java prints for `Raw<Entity, Id>`: the entity
   * class named `Entity` is resolved with its table and fields, and the id class
   * named `Id` is set exactly when it can be loaded.
   */
  lemma ResolveGenericTypeName(raw: string, entity: string, id: string, classes: map<string, LoadedClass>)
    requires ',' !in raw && '<' !in raw && ',' !in entity && ',' !in id
    requires id != [] && !IsJavaSpace(id[0]) && !IsJavaSpace(id[|id| - 1])
    requires entity in classes && classes[entity].tableName.Some?
    ensures ResolveTypes(GenericTypeName(raw, entity, id), classes)
      == Success(Shape(Some(entity), classes[entity].tableName, Some(classes[entity].fields),
                       if id in classes then Some(id) else None))
  {
    TypeNamesRoundTrip(raw, entity, id);
  }

  /** An unknown entity class is swallowed before the id segment is read, so even a
      type name with no id segment constructs (with every reflective field null). */
  lemma UnknownEntityClassTolerated(typeName: string, classes: map<string, LoadedClass>)
    requires ',' !in typeName && EntityClassName(typeName) !in classes
    ensures ResolveTypes(typeName, classes) == Success(Unresolved)
  {
  }

  // ---------------------------------------------------------------------------
  // using a connection

  /** The exceptions of `findAll` and `count`. */
  datatype DaoFault =
    | ConnectionFailed              // MysqlConnectionException from getConnection
    | SqlFailed                     // MysqlSqlException
    | MappingFailed(cause: ReadError) // DataAccessException from the row mapping

  /**
   * The shape shared by `findAll` and `count`: acquire a connection, run the
   * statement, and release the connection only when everything succeeded; on any
   * exception the connection is neither released nor closed. `outcome` is what the
   * statement produced: `None` when executing it threw.
   */
  function UseConnection<T>(s: PoolState, minted: Option<Conn>, outcome: Option<Result<T, DaoFault>>,
                            acquiredAt: int, releasedAt: int, maxSize: int): (r: (Result<T, DaoFault>, PoolState))
    ensures var (conn, afterAcquire) := Acquire(s, minted, acquiredAt);
      && (r.0.Success? <==> conn.Some? && outcome.Some? && outcome.value.Success?)
      && (r.0.Success? ==> r.0 == outcome.value && r.1 == Release(afterAcquire, conn.value, releasedAt, maxSize).1)
      && (r.0.Failure? ==> r.1 == afterAcquire)
      && (conn.None? ==> r.0 == Failure(ConnectionFailed))
      && (conn.Some? && outcome.None? ==> r.0 == Failure(SqlFailed))
      && (conn.Some? && outcome.Some? && outcome.value.Failure? ==> r.0 == outcome.value)
    ensures WellFormed(s, maxSize) ==> WellFormed(r.1, maxSize)
    ensures s.lastUsed.Keys <= r.1.lastUsed.Keys
  {
    var (conn, afterAcquire) := Acquire(s, minted, acquiredAt);
    if conn.None? then (Failure(ConnectionFailed), afterAcquire)
    else match outcome
      case None => (Failure(SqlFailed), afterAcquire)
      case Some(Failure(f)) => (Failure(f), afterAcquire)
      case Some(Success(v)) => (Success(v), Release(afterAcquire, conn.value, releasedAt, maxSize).1)
  }

  /** On a pool that has an idle connection, a successful call takes the head and puts it back at the tail. */
  lemma UseConnectionRotates<T>(s: PoolState, minted: Option<Conn>, outcome: Option<Result<T, DaoFault>>,
                                acquiredAt: int, releasedAt: int, maxSize: int)
    requires WellFormed(s, maxSize) && s.idle != []
    requires UseConnection(s, minted, outcome, acquiredAt, releasedAt, maxSize).0.Success?
    ensures var after := UseConnection(s, minted, outcome, acquiredAt, releasedAt, maxSize).1;
      after.idle == s.idle[1..] + [s.idle[0]] && after.lastUsed == s.lastUsed[s.idle[0] := releasedAt]
  {
  }

  /** A failed call on a pool with an idle connection loses that connection from the queue. */
  lemma UseConnectionLeaksOnFailure<T>(s: PoolState, minted: Option<Conn>, outcome: Option<Result<T, DaoFault>>,
                                       acquiredAt: int, releasedAt: int, maxSize: int)
    requires s.idle != []
    requires UseConnection(s, minted, outcome, acquiredAt, releasedAt, maxSize).0.Failure?
    ensures UseConnection(s, minted, outcome, acquiredAt, releasedAt, maxSize).1 == PoolState(s.idle[1..], s.lastUsed)
  {
  }

  function SelectAllSql(tableName: string): string {
    "select * from " + tableName
  }

  function CountSql(tableName: string): string {
    "select count(*) as ecount from " + tableName
  }

  /** What `findAll`'s statement produces: a failing read while mapping becomes a `DataAccessException`. */
  function EntitiesOf(result: Option<seq<Row>>, fields: seq<FieldDescriptor>): (r: Option<Result<seq<Entity>, DaoFault>>)
    ensures result.None? <==> r.None?
    ensures result.Some? && MapRows(fields, result.value).Failure? ==>
      r == Some(Failure(MappingFailed(MapRows(fields, result.value).error)))
    ensures result.Some? && MapRows(fields, result.value).Success? ==> r == Some(Success(MapRows(fields, result.value).value))
  {
    match result
    case None => None
    case Some(rows) =>
      match MapRows(fields, rows)
      case Failure(e) => Some(Failure(MappingFailed(e)))
      case Success(es) => Some(Success(es))
  }

  /** What `count`'s statement produces: a failing read of `ecount` is an `SQLException`, hence a `MysqlSqlException`. */
  function CountOf(result: Option<seq<Row>>): (r: Option<Result<int, DaoFault>>)
    ensures result.None? <==> r.None?
    ensures result.Some? && CountFromRows(result.value).Failure? ==> r == Some(Failure(SqlFailed))
    ensures result.Some? && CountFromRows(result.value).Success? ==> r == Some(Success(CountFromRows(result.value).value))
  {
    match result
    case None => None
    case Some(rows) =>
      match CountFromRows(rows)
      case Failure(_) => Some(Failure(SqlFailed))
      case Success(n) => Some(Success(n))
  }

  /** A successful `findAll` returns one entity per row, in row order, each mapped from its row. */
  lemma FindAllOnePerRow(s: PoolState, minted: Option<Conn>, rows: seq<Row>, fields: seq<FieldDescriptor>,
                         acquiredAt: int, releasedAt: int, maxSize: int)
    requires UseConnection(s, minted, EntitiesOf(Some(rows), fields), acquiredAt, releasedAt, maxSize).0.Success?
    ensures var es := UseConnection(s, minted, EntitiesOf(Some(rows), fields), acquiredAt, releasedAt, maxSize).0.value;
      |es| == |rows| && forall i :: 0 <= i < |rows| ==> MapFields(fields, rows[i]) == Success(es[i])
  {
  }

  class MysqlDaoInterpreter {
    const pool: DataSourcePool
    const tableName: string
    const fields: seq<FieldDescriptor>

    /** The constructor with its entity class resolved: a new pool, and the table and fields of the entity. */
    constructor (config: PoolConfig, tableName: string, fields: seq<FieldDescriptor>)
      ensures fresh(pool) && pool.Valid() && pool.State() == PoolState([], map[])
      ensures pool.settings == config.driver && pool.maxSize == config.maxSize
      ensures pool.minSize == config.minSize && pool.maxIdleTime == config.maxIdleTime
      ensures this.tableName == tableName && this.fields == fields
    {
      pool := new DataSourcePool(config);
      this.tableName := tableName;
      this.fields := fields;
    }

    /** `findOne`: a stub that returns null. */
    method FindOne(id: Value) returns (r: Option<Entity>)
      ensures r == None
    {
      r := None;
    }

    /** `findAll`: every row of the table as an entity, through one pooled connection. */
    method FindAll(connect: string -> Option<Conn>, query: string -> Option<seq<Row>>, acquiredAt: int, releasedAt: int)
      returns (r: Result<seq<Entity>, DaoFault>)
      requires pool.Valid()
      modifies pool
      ensures pool.Valid()
      ensures (r, pool.State()) == UseConnection(old(pool.State()), connect(JdbcUrl(pool.settings.host)),
        EntitiesOf(query(SelectAllSql(tableName)), fields), acquiredAt, releasedAt, pool.maxSize)
    {
      var conn := pool.GetConnection(connect, acquiredAt);
      if conn.None? {
        return Failure(ConnectionFailed);
      }
      var result := query(SelectAllSql(tableName));
      if result.None? {
        return Failure(SqlFailed);
      }
      var elements := MapResultSet(fields, result.value);
      if elements.Failure? {
        return Failure(MappingFailed(elements.error));
      }
      var _ := pool.FreeConnection(conn.value, releasedAt);
      r := Success(elements.value);
    }

    /** `save`: a stub that returns null. */
    method Save(entity: Entity) returns (r: Option<Entity>)
      ensures r == None
    {
      r := None;
    }

    /** `delete(E)`: a stub that does nothing. */
    method Delete(entity: Entity)
      ensures unchanged(pool)
    {
    }

    /** `delete(I)`: a stub that does nothing. */
    method DeleteById(id: Value)
      ensures unchanged(pool)
    {
    }

    /** `count`: the table's row count, through one pooled connection. */
    method Count(connect: string -> Option<Conn>, query: string -> Option<seq<Row>>, acquiredAt: int, releasedAt: int)
      returns (r: Result<int, DaoFault>)
      requires pool.Valid()
      modifies pool
      ensures pool.Valid()
      ensures (r, pool.State()) == UseConnection(old(pool.State()), connect(JdbcUrl(pool.settings.host)),
        CountOf(query(CountSql(tableName))), acquiredAt, releasedAt, pool.maxSize)
    {
      var conn := pool.GetConnection(connect, acquiredAt);
      if conn.None? {
        return Failure(ConnectionFailed);
      }
      var result := query(CountSql(tableName));
      if result.None? {
        return Failure(SqlFailed);
      }
      var count := CountFromRows(result.value);
      if count.Failure? {
        return Failure(SqlFailed);
      }
      var _ := pool.FreeConnection(conn.value, releasedAt);
      r := Success(count.value);
    }
  }
}
