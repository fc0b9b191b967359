/** Column descriptors: the library's wire column type and the binding's nine semantic types. */
module Columns {

  /** `Result::Column::type_t` (src/drizzle/result.h, src/node-db/result.h). */
  datatype ColumnType = STRING | TEXT | INT | NUMBER | DATE | TIME | DATETIME | BOOL | SET

  /** The column types libdrizzle reports (`drizzle_column_type_t`). */
  datatype WireType =
    | TINY | BIT | SHORT | YEAR | INT24 | LONG | LONGLONG
    | FLOAT | DOUBLE | DECIMAL | NEWDECIMAL
    | DATE_ | NEWDATE | TIME_ | TIMESTAMP | DATETIME_
    | TINY_BLOB | MEDIUM_BLOB | LONG_BLOB | BLOB
    | SET_
    | NULL | VARCHAR | ENUM | VAR_STRING | STRING_ | GEOMETRY

  /** A column as the library describes it: name, wire type and declared size. */
  datatype WireColumn = WireColumn(name: string, wireType: WireType, size: nat)

  /** A column descriptor as the binding keeps it. */
  datatype Column = Column(name: string, columnType: ColumnType)

  predicate IsIntegerWire(t: WireType) {
    t in {BIT, SHORT, YEAR, INT24, LONG, LONGLONG}
  }

  predicate IsNumberWire(t: WireType) {
    t in {FLOAT, DOUBLE, DECIMAL, NEWDECIMAL}
  }

  predicate IsBlobWire(t: WireType) {
    t in {TINY_BLOB, MEDIUM_BLOB, LONG_BLOB, BLOB}
  }

  /** Wire types with a dedicated case in the classification switch. */
  predicate HasOwnCase(t: WireType) {
    t == TINY || IsIntegerWire(t) || IsNumberWire(t) || IsBlobWire(t)
    || t in {DATE_, NEWDATE, TIME_, TIMESTAMP, DATETIME_, SET_}
  }

  /**
   * The switch in `Result::Column::Column`. The contract gives, for every
   * semantic type, exactly which wire types (and for BOOL, which size) map to it.
   */
  function Classify(t: WireType, size: nat): (r: ColumnType)
    ensures r == BOOL <==> t == TINY && size == 1
    ensures r == INT <==> (t == TINY && size != 1) || IsIntegerWire(t)
    ensures r == NUMBER <==> IsNumberWire(t)
    ensures r == DATE <==> t == DATE_ || t == NEWDATE
    ensures r == TIME <==> t == TIME_
    ensures r == DATETIME <==> t == TIMESTAMP || t == DATETIME_
    ensures r == TEXT <==> IsBlobWire(t)
    ensures r == SET <==> t == SET_
    ensures r == STRING <==> !HasOwnCase(t)
  {
    match t
    case TINY => if size == 1 then BOOL else INT
    case BIT | SHORT | YEAR | INT24 | LONG | LONGLONG => INT
    case FLOAT | DOUBLE | DECIMAL | NEWDECIMAL => NUMBER
    case DATE_ | NEWDATE => DATE
    case TIME_ => TIME
    case TIMESTAMP | DATETIME_ => DATETIME
    case TINY_BLOB | MEDIUM_BLOB | LONG_BLOB | BLOB => TEXT
    case SET_ => SET
    case _ => STRING
  }

  /** `new Column(current)`: the descriptor built from one library column. */
  function Describe(w: WireColumn): (c: Column)
    ensures c.name == w.name
    ensures c.columnType == BOOL <==> w.wireType == TINY && w.size == 1
  {
    Column(w.name, Classify(w.wireType, w.size))
  }

  /**
   * The constructor loop over `drizzle_column_next`: one descriptor per
   * library column, in order.
   */
  method DescribeAll(wire: seq<WireColumn>) returns (cols: seq<Column>)
    ensures |cols| == |wire|
    ensures forall i :: 0 <= i < |wire| ==> cols[i] == Describe(wire[i])
    ensures forall i :: 0 <= i < |wire| ==> cols[i].name == wire[i].name
    ensures forall i :: 0 <= i < |wire| ==> cols[i].columnType == Classify(wire[i].wireType, wire[i].size)
  {
    cols := [];
    var i := 0;
    while i < |wire|
      invariant 0 <= i <= |wire|
      invariant |cols| == i
      invariant forall k :: 0 <= k < i ==> cols[k] == Describe(wire[k])
    {
      cols := cols + [Describe(wire[i])];
      i := i + 1;
    }
  }
}
