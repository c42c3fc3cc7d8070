/**
 * Values of the GeoPackage catalog (OGC 12-128): the rows of gpkg_spatial_ref_sys,
 * gpkg_contents, gpkg_geometry_columns and gpkg_tile_matrix_set, the column lists of
 * user feature and tile tables, the catalog table kinds, the exceptions the factory
 * raises, and the storage engine's behaviour as an explicit fault oracle.
 */
module Catalog {

  datatype Option<+T> = None | Some(value: T)

  /** A Java `long`. */
  newtype Long = x: int | -0x8000_0000_0000_0000 <= x < 0x8000_0000_0000_0000

  /** A Java `double`, kept as its 64 bits: bounding-box values are only ever copied. */
  datatype Double = Double(bits: bv64)

  datatype BoundingBox = BoundingBox(
    minLongitude: Double, maxLongitude: Double, minLatitude: Double, maxLatitude: Double)

  /** A row of gpkg_spatial_ref_sys. */
  datatype SpatialReferenceSystem = SpatialReferenceSystem(
    srsId: Long, srsName: string, organization: string, organizationCoordsysId: Long,
    definition: string, description: Option<string>)

  datatype ContentsDataType = Features | Tiles

  /** A row of gpkg_contents; the last-change timestamp is not modelled. */
  datatype Contents = Contents(
    tableName: string, dataType: ContentsDataType, identifier: string,
    description: Option<string>, minX: Double, minY: Double, maxX: Double, maxY: Double,
    srsId: Long)

  /** A row of gpkg_geometry_columns. */
  datatype GeometryColumns = GeometryColumns(
    tableName: string, columnName: string, geometryTypeName: string, srsId: Long,
    z: int, m: int)

  /** A row of gpkg_tile_matrix_set. */
  datatype TileMatrixSet = TileMatrixSet(
    tableName: string, srsId: Long, minX: Double, minY: Double, maxX: Double, maxY: Double)

  datatype ColumnType = Integer | Blob | Geometry(geometryTypeName: string)

  /** One column of a user table, as the table creator's DDL declares it. */
  datatype Column = Column(
    index: nat, name: string, dataType: ColumnType, notNull: bool, primaryKey: bool)

  /**
   * The columns of a new user feature table: an integer primary key "id" at index 0
   * and the nullable geometry column at index 1.
   */
  function FeatureColumns(geometryColumns: GeometryColumns): seq<Column>
  {
    [Column(0, "id", Integer, true, true),
     Column(1, geometryColumns.columnName, Geometry(geometryColumns.geometryTypeName), false, false)]
  }

  /** The required columns of a user tile table (OGC 12-128 clause 2.2.8). */
  function RequiredTileColumns(): seq<Column>
  {
    [Column(0, "id", Integer, true, true),
     Column(1, "zoom_level", Integer, true, false),
     Column(2, "tile_column", Integer, true, false),
     Column(3, "tile_row", Integer, true, false),
     Column(4, "tile_data", Blob, true, false)]
  }

  /** The catalog tables and views a GeoPackage may hold. */
  datatype TableKind =
    | GpkgSpatialRefSys | SqlMmSpatialRefSys | SfSqlSpatialRefSys
    | GpkgContents
    | GpkgGeometryColumns | SqlMmGeometryColumns | SfSqlGeometryColumns
    | GpkgTileMatrixSet | GpkgTileMatrix
    | GpkgDataColumns | GpkgDataColumnConstraints
    | GpkgMetadata | GpkgMetadataReference
    | GpkgExtensions

  /** The SQL name of each catalog table or view. */
  function TableName(kind: TableKind): string
  {
    match kind
    case GpkgSpatialRefSys => "gpkg_spatial_ref_sys"
    case SqlMmSpatialRefSys => "st_spatial_ref_sys"
    case SfSqlSpatialRefSys => "spatial_ref_sys"
    case GpkgContents => "gpkg_contents"
    case GpkgGeometryColumns => "gpkg_geometry_columns"
    case SqlMmGeometryColumns => "st_geometry_columns"
    case SfSqlGeometryColumns => "geometry_columns"
    case GpkgTileMatrixSet => "gpkg_tile_matrix_set"
    case GpkgTileMatrix => "gpkg_tile_matrix"
    case GpkgDataColumns => "gpkg_data_columns"
    case GpkgDataColumnConstraints => "gpkg_data_column_constraints"
    case GpkgMetadata => "gpkg_metadata"
    case GpkgMetadataReference => "gpkg_metadata_reference"
    case GpkgExtensions => "gpkg_extensions"
  }

  /** SQLite folds only the ASCII letters when it compares identifiers. */
  function LowerAscii(c: char): char
  {
    if 'A' <= c <= 'Z' then (c as int - 'A' as int + 'a' as int) as char else c
  }

  /** An identifier with its ASCII capitals folded to lower case. */
  function Folded(name: string): (r: string)
    ensures |r| == |name|
    ensures forall i :: 0 <= i < |name| ==> r[i] == LowerAscii(name[i])
  {
    seq(|name|, i requires 0 <= i < |name| => LowerAscii(name[i]))
  }

  /** Whether two table names denote the same table: they differ at most in ASCII case. */
  predicate SameName(a: string, b: string)
  {
    Folded(a) == Folded(b)
  }

  /** Names of different lengths never denote the same table. */
  lemma LengthsTellNamesApart(a: string, b: string)
    requires |a| != |b|
    ensures !SameName(a, b)
  {
  }

  /** The simple name of the row class bound to each catalog table, as error messages show it. */
  function SimpleName(kind: TableKind): string
  {
    match kind
    case GpkgSpatialRefSys => "SpatialReferenceSystem"
    case SqlMmSpatialRefSys => "SpatialReferenceSystemSqlMm"
    case SfSqlSpatialRefSys => "SpatialReferenceSystemSfSql"
    case GpkgContents => "Contents"
    case GpkgGeometryColumns => "GeometryColumns"
    case SqlMmGeometryColumns => "GeometryColumnsSqlMm"
    case SfSqlGeometryColumns => "GeometryColumnsSfSql"
    case GpkgTileMatrixSet => "TileMatrixSet"
    case GpkgTileMatrix => "TileMatrix"
    case GpkgDataColumns => "DataColumns"
    case GpkgDataColumnConstraints => "DataColumnConstraints"
    case GpkgMetadata => "Metadata"
    case GpkgMetadataReference => "MetadataReference"
    case GpkgExtensions => "Extensions"
  }

  /**
   * The Java exceptions that reach the factory: the checked storage exception, an
   * unchecked one, and the library's own unchecked GeoPackageException with its cause.
   */
  datatype Exception =
    | SQLException(message: string)
    | RuntimeException(message: string)
    | GeoPackageException(message: string, cause: Option<Exception>)

  datatype Result<+T> = Success(value: T) | Failure(error: Exception)

  /**
   * What `try { ... } catch (SQLException e) { throw new GeoPackageException(message, e); }`
   * hands to the caller: a storage exception is wrapped, an unchecked one passes unchanged.
   */
  function Rethrow(e: Exception, message: string): (r: Exception)
    ensures !r.SQLException?
    ensures e.SQLException? ==> r == GeoPackageException(message, Some(e))
    ensures !e.SQLException? ==> r == e
  {
    if e.SQLException? then GeoPackageException(message, Some(e)) else e
  }

  /** Whether `s` consists of decimal digits only. */
  predicate IsDecimal(s: string)
  {
    forall i :: 0 <= i < |s| ==> '0' <= s[i] <= '9'
  }

  /** The number a string of decimal digits denotes, most significant digit first. */
  function DecimalValue(s: string): nat
  {
    if |s| == 0 then 0
    else
      var d := s[|s| - 1] as int - '0' as int;
      DecimalValue(s[..|s| - 1]) * 10 + (if 0 <= d then d else 0)
  }

  /** The decimal digits of `n`, most significant first, without leading zeros. */
  function Digits(n: nat): (s: string)
    ensures |s| > 0 && IsDecimal(s)
    ensures n > 0 ==> s[0] != '0'
  {
    var last := [(48 + n % 10) as char];
    if n < 10 then last else Digits(n / 10) + last
  }

  /** The digits denote `n`: `Digits` is Java's decimal rendering of a non-negative number. */
  lemma {:induction false} DigitsValue(n: nat)
    ensures DecimalValue(Digits(n)) == n
  {
    var last := [(48 + n % 10) as char];
    if n >= 10 {
      var s := Digits(n / 10) + last;
      assert s[..|s| - 1] == Digits(n / 10);
      DigitsValue(n / 10);
    }
  }

  /** The magnitude of a `long`, as an unbounded integer. */
  function Magnitude(n: Long): nat
  {
    if n < 0 then -(n as int) else n as int
  }

  /**
   * Java's decimal rendering of a `long` in a string concatenation: an optional minus
   * sign, then the decimal digits of the magnitude with no leading zero.
   */
  function LongToString(n: Long): (s: string)
    ensures |s| > 0
    ensures s[0] == '-' <==> n < 0
    ensures var digits := if n < 0 then s[1..] else s;
      && |digits| > 0 && IsDecimal(digits)
      && (digits[0] == '0' ==> digits == "0")
      && DecimalValue(digits) == Magnitude(n)
  {
    DigitsValue(Magnitude(n));
    if n < 0 then "-" + Digits(Magnitude(n)) else Digits(Magnitude(n))
  }

  /** The calls the factory makes into the storage engine, the DAOs and the table creator. */
  datatype Call =
    | SrsQuery(srsId: Long)                    // SpatialReferenceSystemDao.queryForId
    | ExistsQuery(kind: TableKind)             // dao.isTableExists()
    | CreateScript(kind: TableKind)            // tableCreator.create<Kind>()
    | CreateTableDdl(tableName: string)        // tableCreator.createTable(table)
    | RowInsert(kind: TableKind, tableName: string)  // dao.create(row)
    | NamesQuery(kind: TableKind)              // getFeatureTables() / getTileTables() of a DAO
    | ContentsDelete(tableName: string)        // ContentsDao.deleteTable(table)

  /**
   * The storage engine's behaviour, given rather than simulated: the exception each call
   * throws, if any, and the number of statements each catalog table's create script runs.
   */
  datatype Engine = Engine(faults: map<Call, Exception>, scriptStatements: TableKind -> nat)
  {
    function Fault(call: Call): Option<Exception>
    {
      if call in faults then Some(faults[call]) else None
    }
  }

  /**
   * The table creator's `createTable` and the contents DAO's `deleteTable` declare no
   * checked exception, so neither can throw the checked storage exception.
   */
  predicate ThrowsAsDeclared(engine: Engine)
  {
    forall call :: call in engine.faults && (call.CreateTableDdl? || call.ContentsDelete?) ==>
      !engine.faults[call].SQLException?
  }
}
