/**
 * How the interpreter turns result rows into entities. An entity class is given
 * as its list of declared fields (name, Java type, final or not) in place of
 * reflection; a row maps column names to cells; an entity maps the names of the
 * fields that were set to their values (a field that was never set keeps Java's
 * default and is absent from the map).
 */
module EntityMapping {
  import opened Results

  datatype Primitive = Int | Long | Boolean | Byte | Short | Char | Float | Double

  /** A field's declared type as far as the mapping cares. */
  datatype JavaType =
    | PrimitiveType(p: Primitive)   // int, long, ...
    | BoxedType(p: Primitive)       // Integer, Long, ...
    | StringType
    | OtherType(name: string)

  /** The six kinds the mapping knows, one per `ResultSet` accessor. */
  datatype Kind = IntKind | LongKind | StringKind | BoolKind | ByteKind | ShortKind

  function PrimitiveKind(p: Primitive): Option<Kind> {
    match p
    case Int => Some(IntKind)
    case Long => Some(LongKind)
    case Boolean => Some(BoolKind)
    case Byte => Some(ByteKind)
    case Short => Some(ShortKind)
    case _ => None
  }

  /** The primitive type that the accessor of a non-string kind returns (`getInt` an `int`, ...). */
  function ReturnType(k: Kind): Primitive
    requires k != StringKind
  {
    match k
    case IntKind => Int
    case LongKind => Long
    case BoolKind => Boolean
    case ByteKind => Byte
    case ShortKind => Short
  }

  /** The accessor a field is read with; `None` when its type is none of the six. */
  function KindOf(t: JavaType): (k: Option<Kind>)
    ensures k.Some? <==> t.StringType? || ((t.PrimitiveType? || t.BoxedType?) && t.p !in {Char, Float, Double})
    ensures k == Some(StringKind) <==> t.StringType?
    ensures k.Some? && !t.StringType? ==> k.value != StringKind && ReturnType(k.value) == t.p
  {
    match t
    case PrimitiveType(p) => PrimitiveKind(p)
    case BoxedType(p) => PrimitiveKind(p)
    case StringType => Some(StringKind)
    case OtherType(_) => None
  }

  /** A boxed type is read exactly like its primitive. */
  lemma BoxedReadsLikePrimitive(p: Primitive)
    ensures KindOf(BoxedType(p)) == KindOf(PrimitiveType(p))
  {
  }

  datatype Value =
    | IntValue(n: int)
    | LongValue(n: int)
    | StringValue(s: string)
    | BoolValue(b: bool)
    | ByteValue(n: int)
    | ShortValue(n: int)

  function KindOfValue(v: Value): Kind {
    match v
    case IntValue(_) => IntKind
    case LongValue(_) => LongKind
    case StringValue(_) => StringKind
    case BoolValue(_) => BoolKind
    case ByteValue(_) => ByteKind
    case ShortValue(_) => ShortKind
  }

  /** What a primitive accessor returns for SQL NULL: zero, or false. */
  function ZeroOf(k: Kind): (v: Value)
    requires k != StringKind
    ensures KindOfValue(v) == k
  {
    match k
    case IntKind => IntValue(0)
    case LongKind => LongValue(0)
    case BoolKind => BoolValue(false)
    case ByteKind => ByteValue(0)
    case ShortKind => ShortValue(0)
  }

  datatype Cell = SqlNull | Stored(value: Value)

  type Row = map<string, Cell>

  /** Why a column could not be read (the driver's `SQLException`). */
  datatype ReadError = ColumnNotFound(column: string) | NotConvertible(column: string)

  /**
   * `resultSet.getXxx(column)` for the accessor of `kind`. A missing column is an
   * error; SQL NULL reads as zero/false through the primitive accessors, and as
   * null (`None`) only through `getString`.
   */
  function ReadColumn(row: Row, column: string, kind: Kind): (r: Result<Option<Value>, ReadError>)
    ensures column !in row ==> r == Failure(ColumnNotFound(column))
    ensures r.Success? && r.value.Some? ==> KindOfValue(r.value.value) == kind
    ensures r.Success? && kind != StringKind ==> r.value.Some?
    ensures r.Success? && r.value.None? <==> column in row && row[column] == SqlNull && kind == StringKind
    ensures column in row && row[column].Stored? && KindOfValue(row[column].value) == kind ==>
      r == Success(Some(row[column].value))
    ensures column in row && row[column] == SqlNull && kind != StringKind ==> r == Success(Some(ZeroOf(kind)))
    ensures column in row && row[column].Stored? && KindOfValue(row[column].value) != kind ==>
      r == Failure(NotConvertible(column))
  {
    if column !in row then Failure(ColumnNotFound(column))
    else match row[column]
      case SqlNull => Success(if kind == StringKind then None else Some(ZeroOf(kind)))
      case Stored(v) => if KindOfValue(v) == kind then Success(Some(v)) else Failure(NotConvertible(column))
  }

  datatype FieldDescriptor = FieldDescriptor(name: string, javaType: JavaType, isFinal: bool)

  type Entity = map<string, Value>

  /** The fields the mapping writes to: not final, and of one of the six kinds. */
  predicate Settable(f: FieldDescriptor) {
    !f.isFinal && KindOf(f.javaType).Some?
  }

  /** One pass of the inner loop: read the field's column and set the field when the value is not null. */
  function SetField(e: Entity, f: FieldDescriptor, row: Row): Result<Entity, ReadError> {
    if f.isFinal then Success(e)
    else match KindOf(f.javaType)
      case None => Success(e)
      case Some(kind) =>
        match ReadColumn(row, f.name, kind)
        case Failure(err) => Failure(err)
        case Success(None) => Success(e)
        case Success(Some(v)) => Success(e[f.name := v])
  }

  /** A fresh entity with the fields `fs` set from `row`, in declaration order; the first failing read wins. */
  function MapFields(fs: seq<FieldDescriptor>, row: Row): Result<Entity, ReadError> {
    if fs == [] then Success(map[])
    else match MapFields(fs[..|fs| - 1], row)
      case Failure(err) => Failure(err)
      case Success(e) => SetField(e, fs[|fs| - 1], row)
  }

  /** Every row becomes one entity, in row order; the first failing row wins. */
  function MapRows(fs: seq<FieldDescriptor>, rows: seq<Row>): (r: Result<seq<Entity>, ReadError>)
    ensures r.Success? <==> forall i :: 0 <= i < |rows| ==> MapFields(fs, rows[i]).Success?
    ensures r.Success? ==> |r.value| == |rows| && forall i :: 0 <= i < |rows| ==> MapFields(fs, rows[i]) == Success(r.value[i])
  {
    if rows == [] then Success([])
    else match MapRows(fs, rows[..|rows| - 1])
      case Failure(err) => Failure(err)
      case Success(es) =>
        match MapFields(fs, rows[|rows| - 1])
        case Failure(err) => Failure(err)
        case Success(e) => Success(es + [e])
  }

  /** Once a prefix of the fields fails, mapping all of them fails the same way. */
  lemma {:induction false} MapFieldsFailureStays(fs: seq<FieldDescriptor>, row: Row, j: nat)
    requires j <= |fs| && MapFields(fs[..j], row).Failure?
    ensures MapFields(fs, row) == MapFields(fs[..j], row)
  {
    if j < |fs| {
      assert fs[..|fs| - 1][..j] == fs[..j];
      MapFieldsFailureStays(fs[..|fs| - 1], row, j);
    } else {
      assert fs[..j] == fs;
    }
  }

  /** Once a prefix of the rows fails, mapping all of them fails the same way. */
  lemma {:induction false} MapRowsFailureStays(fs: seq<FieldDescriptor>, rows: seq<Row>, i: nat)
    requires i <= |rows| && MapRows(fs, rows[..i]).Failure?
    ensures MapRows(fs, rows) == MapRows(fs, rows[..i])
  {
    if i < |rows| {
      assert rows[..|rows| - 1][..i] == rows[..i];
      MapRowsFailureStays(fs, rows[..|rows| - 1], i);
    } else {
      assert rows[..i] == rows;
    }
  }

  predicate DistinctNames(fs: seq<FieldDescriptor>) {
    forall i, j :: 0 <= i < j < |fs| ==> fs[i].name != fs[j].name
  }

  /** What a successful mapping did with field `f`. */
  predicate Mapped(e: Entity, f: FieldDescriptor, row: Row) {
    if !Settable(f) then f.name !in e
    else match ReadColumn(row, f.name, KindOf(f.javaType).value)
      case Success(Some(v)) => f.name in e && e[f.name] == v
      case Success(None) => f.name !in e
      case Failure(_) => false
  }

  /**
   * The mapping of one row, field by field: it fails exactly when some settable
   * field's column cannot be read; otherwise final fields and fields of other
   * kinds are left unset, a null string is left unset, every other settable field
   * holds its column's value, and nothing else is set.
   */
  lemma {:induction false} MapFieldsSpec(fs: seq<FieldDescriptor>, row: Row)
    requires DistinctNames(fs)
    ensures MapFields(fs, row).Success? <==>
      forall i :: 0 <= i < |fs| && Settable(fs[i]) ==> ReadColumn(row, fs[i].name, KindOf(fs[i].javaType).value).Success?
    ensures MapFields(fs, row).Success? ==>
      && (forall i :: 0 <= i < |fs| ==> Mapped(MapFields(fs, row).value, fs[i], row))
      && MapFields(fs, row).value.Keys <= set f | f in fs && Settable(f) :: f.name
  {
    if fs != [] {
      var init, f := fs[..|fs| - 1], fs[|fs| - 1];
      assert DistinctNames(init);
      MapFieldsSpec(init, row);
      match MapFields(init, row)
      case Failure(_) =>
      case Success(e) =>
        var e' := MapFields(fs, row);
        forall i | 0 <= i < |init| ensures f.name != init[i].name {
          assert fs[i] == init[i];
        }
        if e'.Success? {
          forall i | 0 <= i < |fs| ensures Mapped(e'.value, fs[i], row) {
            if i < |init| {
              assert fs[i] == init[i];
              assert Mapped(e, init[i], row);
            }
          }
        }
    }
  }

  /**
   * The `findAll` mapping loop: for each row a fresh entity, whose non-final
   * fields are read one by one with the accessor of their kind.
   */
  method MapResultSet(fs: seq<FieldDescriptor>, rows: seq<Row>) returns (r: Result<seq<Entity>, ReadError>)
    ensures r == MapRows(fs, rows)
  {
    var elements: seq<Entity> := [];
    var i := 0;
    while i < |rows|
      invariant 0 <= i <= |rows|
      invariant MapRows(fs, rows[..i]) == Success(elements)
    {
      var row := rows[i];
      var element: Entity := map[];
      for j := 0 to |fs|
        invariant MapFields(fs[..j], row) == Success(element)
      {
        var f := fs[j];
        assert fs[..j + 1][..j] == fs[..j];
        if f.isFinal {
          continue;
        }
        var value: Option<Value> := None;
        var kind := KindOf(f.javaType);
        if kind.Some? {
          var read := ReadColumn(row, f.name, kind.value);
          if read.Failure? {
            MapFieldsFailureStays(fs, row, j + 1);
            assert rows[..i + 1][..i] == rows[..i];
            MapRowsFailureStays(fs, rows, i + 1);
            return Failure(read.error);
          }
          value := read.value;
        }
        if value.Some? {
          element := element[f.name := value.value];
        }
      }
      assert fs[..|fs|] == fs;
      assert rows[..i + 1][..i] == rows[..i];
      elements := elements + [element];
      i := i + 1;
    }
    assert rows[..i] == rows;
    r := Success(elements);
  }

  /** `count`'s reading of its result: the `ecount` column of the first row, or 0 when there is no row. */
  function CountFromRows(rows: seq<Row>): (r: Result<int, ReadError>)
    ensures rows == [] ==> r == Success(0)
    ensures rows != [] && "ecount" !in rows[0] ==> r == Failure(ColumnNotFound("ecount"))
    ensures rows != [] && "ecount" in rows[0] && rows[0]["ecount"] == SqlNull ==> r == Success(0)
    ensures forall n :: rows != [] && "ecount" in rows[0] && rows[0]["ecount"] == Stored(LongValue(n)) ==> r == Success(n)
  {
    if rows == [] then Success(0)
    else match ReadColumn(rows[0], "ecount", LongKind)
      case Failure(err) => Failure(err)
      case Success(v) => assert v.Some? && v.value.LongValue?; Success(v.value.n)
  }
}
