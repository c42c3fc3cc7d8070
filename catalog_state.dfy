/**
 * The state of one open GeoPackage as the factory sees it, the format's cross-table
 * invariant over that state, and the single storage-engine steps (DAO calls and table
 * creator calls) the factory composes, each with the faults the engine may raise.
 */
module CatalogState {
  import opened Catalog

  /**
   * The database behind a GeoPackage handle: the user tables with their columns, the
   * rows of the catalog tables the factory writes (gpkg_geometry_columns and
   * gpkg_tile_matrix_set in rowid order), and which catalog tables are provisioned.
   */
  datatype Db = Db(
    tables: map<string, seq<Column>>,
    srs: map<Long, SpatialReferenceSystem>,
    contents: map<string, Contents>,
    geometryColumns: seq<GeometryColumns>,
    tileMatrixSets: seq<TileMatrixSet>,
    catalog: set<TableKind>)

  /** The state after a step together with what the step returned or threw. */
  datatype Outcome<+T> = Outcome(db: Db, result: Result<T>)

  /** A feature descriptor row refers to a FEATURES contents row with the same SRS. */
  predicate DescribesFeatures(db: Db, row: GeometryColumns)
  {
    row.tableName in db.contents
    && db.contents[row.tableName].dataType == Features
    && db.contents[row.tableName].srsId == row.srsId
  }

  /** A tile matrix set row refers to a TILES contents row and a known SRS. */
  predicate DescribesTiles(db: Db, row: TileMatrixSet)
  {
    row.tableName in db.contents
    && db.contents[row.tableName].dataType == Tiles
    && row.srsId in db.srs
  }

  /**
   * The cross-table invariant of a well-formed GeoPackage: the SRS and contents catalog
   * tables are bootstrapped, every contents row names an existing table and a known SRS,
   * every descriptor row names a contents row of its kind and lives in a provisioned
   * catalog table, and table_name is unique in each descriptor table.
   */
  predicate Valid(db: Db)
  {
    && GpkgSpatialRefSys in db.catalog
    && GpkgContents in db.catalog
    && (forall id :: id in db.srs ==> db.srs[id].srsId == id)
    && (forall n :: n in db.contents ==>
          db.contents[n].tableName == n && n in db.tables && db.contents[n].srsId in db.srs)
    && (forall i :: 0 <= i < |db.geometryColumns| ==> DescribesFeatures(db, db.geometryColumns[i]))
    && (forall i, j :: 0 <= i < j < |db.geometryColumns| ==>
          db.geometryColumns[i].tableName != db.geometryColumns[j].tableName)
    && (db.geometryColumns != [] ==> GpkgGeometryColumns in db.catalog)
    && (forall i :: 0 <= i < |db.tileMatrixSets| ==> DescribesTiles(db, db.tileMatrixSets[i]))
    && (forall i, j :: 0 <= i < j < |db.tileMatrixSets| ==>
          db.tileMatrixSets[i].tableName != db.tileMatrixSets[j].tableName)
    && (db.tileMatrixSets != [] ==> GpkgTileMatrixSet in db.catalog)
    // Tables and views share one namespace: no user table holds a catalog table's name.
    && (forall kind :: kind in db.catalog ==> !TableNamed(db, TableName(kind)))
  }

  /** The table_name column of a descriptor table's rows, in row order. */
  function TableNames<R>(rows: seq<R>, tableName: R -> string): (names: seq<string>)
    ensures |names| == |rows|
    ensures forall i :: 0 <= i < |rows| ==> names[i] == tableName(rows[i])
  {
    if rows == [] then [] else [tableName(rows[0])] + TableNames(rows[1..], tableName)
  }

  /** The rows of a descriptor table that do not belong to user table `name`, in order. */
  function RowsNotOf<R(!new)>(rows: seq<R>, tableName: R -> string, name: string): (kept: seq<R>)
    ensures |kept| <= |rows|
    ensures forall r :: r in kept <==> r in rows && tableName(r) != name
  {
    if rows == [] then []
    else if tableName(rows[0]) == name then RowsNotOf(rows[1..], tableName, name)
    else [rows[0]] + RowsNotOf(rows[1..], tableName, name)
  }

  /** Stand-in for SQLite's error on an insert into a table that was never created. */
  function NoSuchTable(kind: TableKind): Exception
  {
    SQLException("no such table: " + TableName(kind))
  }

  /** Stand-in for SQLite's error on an insert that repeats a table_name. */
  function UniqueViolation(kind: TableKind): Exception
  {
    SQLException("UNIQUE constraint failed: " + TableName(kind) + ".table_name")
  }

  /** Stand-in for the table creator's error when CREATE TABLE names an existing table. */
  function TableAlreadyExists(name: string): Exception
  {
    GeoPackageException("Failed to create table: " + name,
      Some(SQLException("table " + name + " already exists")))
  }

  /** Whether a user table answers to `name`, which SQLite matches regardless of ASCII case. */
  predicate TableNamed(db: Db, name: string)
  {
    exists t :: t in db.tables && SameName(t, name)
  }

  /**
   * Whether a table or view named like catalog table `kind` exists: the catalog table
   * itself, or a user table that took its name.
   */
  predicate Present(db: Db, kind: TableKind)
  {
    kind in db.catalog || TableNamed(db, TableName(kind))
  }

  /** `dao.isTableExists()` for a catalog table: a lookup by name. */
  function TableExists(db: Db, kind: TableKind, engine: Engine): Result<bool>
  {
    match engine.Fault(ExistsQuery(kind))
    case Some(e) => Failure(e)
    case None => Success(Present(db, kind))
  }

  /**
   * `tableCreator.create<Kind>()`: runs the catalog table's create script and returns the
   * number of statements it ran; the table exists afterwards when that number is positive.
   */
  function RunScript(db: Db, kind: TableKind, engine: Engine): Outcome<nat>
  {
    match engine.Fault(CreateScript(kind))
    case Some(e) => Outcome(db, Failure(e))
    case None =>
      var count := engine.scriptStatements(kind);
      Outcome(if count > 0 then db.(catalog := db.catalog + {kind}) else db, Success(count))
  }

  /**
   * Whether `name` is already used in the database's one namespace of tables and views:
   * by a user table, or by a provisioned catalog table or view.
   */
  predicate NameTaken(db: Db, name: string)
  {
    TableNamed(db, name) || exists kind :: kind in db.catalog && SameName(TableName(kind), name)
  }

  /** `tableCreator.createTable(table)`: CREATE TABLE for a user table. */
  function CreateTable(db: Db, name: string, columns: seq<Column>, engine: Engine): Outcome<()>
  {
    match engine.Fault(CreateTableDdl(name))
    case Some(e) => Outcome(db, Failure(e))
    case None =>
      if NameTaken(db, name) then Outcome(db, Failure(TableAlreadyExists(name)))
      else Outcome(db.(tables := db.tables[name := columns]), Success(()))
  }

  /** `SpatialReferenceSystemDao.queryForId(srsId)`: the row, or none (Java's null). */
  function FindSrs(db: Db, srsId: Long, engine: Engine): Result<Option<SpatialReferenceSystem>>
  {
    match engine.Fault(SrsQuery(srsId))
    case Some(e) => Failure(e)
    case None => Success(if srsId in db.srs then Some(db.srs[srsId]) else None)
  }

  /** `ContentsDao.create(row)`. */
  function InsertContents(db: Db, row: Contents, engine: Engine): Outcome<()>
  {
    match engine.Fault(RowInsert(GpkgContents, row.tableName))
    case Some(e) => Outcome(db, Failure(e))
    case None =>
      if GpkgContents !in db.catalog then Outcome(db, Failure(NoSuchTable(GpkgContents)))
      else if row.tableName in db.contents then Outcome(db, Failure(UniqueViolation(GpkgContents)))
      else Outcome(db.(contents := db.contents[row.tableName := row]), Success(()))
  }

  /** `GeometryColumnsDao.create(row)`. */
  function InsertGeometryColumns(db: Db, row: GeometryColumns, engine: Engine): Outcome<()>
  {
    match engine.Fault(RowInsert(GpkgGeometryColumns, row.tableName))
    case Some(e) => Outcome(db, Failure(e))
    case None =>
      if GpkgGeometryColumns !in db.catalog then Outcome(db, Failure(NoSuchTable(GpkgGeometryColumns)))
      else if exists i :: 0 <= i < |db.geometryColumns| && db.geometryColumns[i].tableName == row.tableName
      then Outcome(db, Failure(UniqueViolation(GpkgGeometryColumns)))
      else Outcome(db.(geometryColumns := db.geometryColumns + [row]), Success(()))
  }

  /** `TileMatrixSetDao.create(row)`. */
  function InsertTileMatrixSet(db: Db, row: TileMatrixSet, engine: Engine): Outcome<()>
  {
    match engine.Fault(RowInsert(GpkgTileMatrixSet, row.tableName))
    case Some(e) => Outcome(db, Failure(e))
    case None =>
      if GpkgTileMatrixSet !in db.catalog then Outcome(db, Failure(NoSuchTable(GpkgTileMatrixSet)))
      else if exists i :: 0 <= i < |db.tileMatrixSets| && db.tileMatrixSets[i].tableName == row.tableName
      then Outcome(db, Failure(UniqueViolation(GpkgTileMatrixSet)))
      else Outcome(db.(tileMatrixSets := db.tileMatrixSets + [row]), Success(()))
  }

  function GeometryColumnsTable(row: GeometryColumns): string { row.tableName }

  function TileMatrixSetTable(row: TileMatrixSet): string { row.tableName }

  /**
   * The state once user table `name` is gone: the table, its contents row and the
   * descriptor rows that cascade from that contents row are all removed.
   */
  function Dropped(db: Db, name: string): (d: Db)
    ensures name !in d.tables && name !in d.contents
    ensures d.tables == db.tables - {name} && d.contents == db.contents - {name}
    ensures forall r :: r in d.geometryColumns <==> r in db.geometryColumns && r.tableName != name
    ensures forall r :: r in d.tileMatrixSets <==> r in db.tileMatrixSets && r.tableName != name
    ensures d.srs == db.srs && d.catalog == db.catalog
  {
    db.(tables := db.tables - {name},
        contents := db.contents - {name},
        geometryColumns := RowsNotOf(db.geometryColumns, GeometryColumnsTable, name),
        tileMatrixSets := RowsNotOf(db.tileMatrixSets, TileMatrixSetTable, name))
  }

  /** `ContentsDao.deleteTable(name)`: drop the table and cascade its catalog rows. */
  function DropTable(db: Db, name: string, engine: Engine): Outcome<()>
  {
    match engine.Fault(ContentsDelete(name))
    case Some(e) => Outcome(db, Failure(e))
    case None => Outcome(Dropped(db, name), Success(()))
  }

  /** `GeometryColumnsDao.getFeatureTables()`: the table_name of every row. */
  function QueryFeatureTables(db: Db, engine: Engine): Result<seq<string>>
  {
    match engine.Fault(NamesQuery(GpkgGeometryColumns))
    case Some(e) => Failure(e)
    case None => Success(TableNames(db.geometryColumns, GeometryColumnsTable))
  }

  /** `TileMatrixSetDao.getTileTables()`: the table_name of every row. */
  function QueryTileTables(db: Db, engine: Engine): Result<seq<string>>
  {
    match engine.Fault(NamesQuery(GpkgTileMatrixSet))
    case Some(e) => Failure(e)
    case None => Success(TableNames(db.tileMatrixSets, TileMatrixSetTable))
  }
}
