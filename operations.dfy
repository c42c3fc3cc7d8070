/**
 * The catalog orchestration of GeoPackageImpl, one function per method: what each
 * method does to the database and what it returns or throws, given the engine's faults.
 * Factory.GeoPackageImpl runs the same steps imperatively and is proved equal to these.
 */
module Operations {
  import opened Catalog
  import opened CatalogState

  function CheckAndCreateMessage(kind: TableKind): string
  {
    "Failed to check if " + SimpleName(kind) + " table exists and create it"
  }

  function SrsQueryFailedMessage(srsId: Long): string
  {
    "Failed to retrieve Spatial Reference System. SRS ID: " + LongToString(srsId)
  }

  function SrsNotFoundMessage(srsId: Long): string
  {
    "Spatial Reference System could not be found. SRS ID: " + LongToString(srsId)
  }

  function MetadataFailedMessage(tableName: string): string
  {
    "Failed to create table and metadata: " + tableName
  }

  function MissingTableMessage(kind: TableKind): string
  {
    "Table or view does not exist for: " + SimpleName(kind)
  }

  function DetectFailedMessage(kind: TableKind): string
  {
    "Failed to detect if table or view exists for dao: " + SimpleName(kind)
  }

  const FeatureTablesFailedMessage := "Failed to retrieve feature tables"
  const TileTablesFailedMessage := "Failed to retrieve tile tables"

  /**
   * `create<Kind>Table()`: provision catalog table `kind` only when it is absent, and
   * report whether this call created it.
   */
  function EnsureTable(db: Db, kind: TableKind, engine: Engine): (o: Outcome<bool>)
    // Only the catalog can change, and only by gaining `kind`.
    ensures o.db == db || o.db == db.(catalog := db.catalog + {kind})
    // True exactly when this call made the table exist.
    ensures o.result == Success(true) <==> kind !in db.catalog && kind in o.db.catalog
    // A table or view of that name that is already there is left alone.
    ensures Present(db, kind) && engine.Fault(ExistsQuery(kind)).None? ==> o == Outcome(db, Success(false))
    // A failing existence check becomes an error and creates nothing.
    ensures engine.Fault(ExistsQuery(kind)).Some? ==>
      o == Outcome(db, Failure(Rethrow(engine.Fault(ExistsQuery(kind)).value, CheckAndCreateMessage(kind))))
    // A failing create script becomes the same error and leaves the catalog as it was.
    ensures !Present(db, kind) && engine.Fault(ExistsQuery(kind)).None? && engine.Fault(CreateScript(kind)).Some? ==>
      o == Outcome(db, Failure(Rethrow(engine.Fault(CreateScript(kind)).value, CheckAndCreateMessage(kind))))
    ensures o.result.Failure? ==> o.db == db && !o.result.error.SQLException?
  {
    match TableExists(db, kind, engine)
    case Failure(e) => Outcome(db, Failure(Rethrow(e, CheckAndCreateMessage(kind))))
    case Success(present) =>
      if present then Outcome(db, Success(false))
      else
        var script := RunScript(db, kind, engine);
        match script.result
        case Failure(e) => Outcome(script.db, Failure(Rethrow(e, CheckAndCreateMessage(kind))))
        case Success(count) => Outcome(script.db, Success(count > 0))
  }

  /** `getSrs(srsId)`: the SRS row, or an error when it cannot be read or does not exist. */
  function GetSrs(db: Db, srsId: Long, engine: Engine): (r: Result<SpatialReferenceSystem>)
    ensures r.Success? <==> engine.Fault(SrsQuery(srsId)).None? && srsId in db.srs
    ensures r.Success? ==> r.value == db.srs[srsId]
    ensures engine.Fault(SrsQuery(srsId)).None? && srsId !in db.srs ==>
      r == Failure(GeoPackageException(SrsNotFoundMessage(srsId), None))
    // A failed query: a storage exception is replaced by a message without its cause,
    // anything else passes unchanged.
    ensures engine.Fault(SrsQuery(srsId)).Some? ==>
      var e := engine.Fault(SrsQuery(srsId)).value;
      && (e.SQLException? ==> r == Failure(GeoPackageException(SrsQueryFailedMessage(srsId), None)))
      && (!e.SQLException? ==> r == Failure(e))
    ensures r.Failure? ==> !r.error.SQLException?
  {
    match FindSrs(db, srsId, engine)
    case Failure(e) =>
      if e.SQLException? then Failure(GeoPackageException(SrsQueryFailedMessage(srsId), None))
      else Failure(e)
    case Success(None) => Failure(GeoPackageException(SrsNotFoundMessage(srsId), None))
    case Success(Some(srs)) => Success(srs)
  }

  /** `deleteTable(name)`: delegate to the contents DAO's cascading delete. */
  function DeleteTable(db: Db, name: string, engine: Engine): (o: Outcome<()>)
    ensures o.result.Success? <==> engine.Fault(ContentsDelete(name)).None?
    ensures o.result.Success? ==> o.db == Dropped(db, name)
    ensures o.result.Failure? ==> o == Outcome(db, Failure(engine.Fault(ContentsDelete(name)).value))
    // Only an unchecked exception can escape, as the Java signature declares none.
    ensures ThrowsAsDeclared(engine) && o.result.Failure? ==> !o.result.error.SQLException?
  {
    DropTable(db, name, engine)
  }

  /** `deleteTableQuietly(name)`: delete, swallowing every failure. */
  function DeleteTableQuietly(db: Db, name: string, engine: Engine): (o: Outcome<()>)
    ensures o.result.Success?
    ensures o.db == DeleteTable(db, name, engine).db
    ensures o.db == db || o.db == Dropped(db, name)
  {
    var deleted := DeleteTable(db, name, engine);
    Outcome(deleted.db, Success(()))
  }

  /** `verifyTableExists(dao)`: succeed only when the catalog table or view is there. */
  function VerifyTableExists(db: Db, kind: TableKind, engine: Engine): (r: Result<()>)
    ensures r.Success? <==> engine.Fault(ExistsQuery(kind)).None? && Present(db, kind)
    ensures engine.Fault(ExistsQuery(kind)).None? && !Present(db, kind) ==>
      r == Failure(GeoPackageException(MissingTableMessage(kind), None))
    ensures engine.Fault(ExistsQuery(kind)).Some? ==>
      r == Failure(Rethrow(engine.Fault(ExistsQuery(kind)).value, DetectFailedMessage(kind)))
  {
    match TableExists(db, kind, engine)
    case Failure(e) => Failure(Rethrow(e, DetectFailedMessage(kind)))
    case Success(present) =>
      if present then Success(()) else Failure(GeoPackageException(MissingTableMessage(kind), None))
  }

  /**
   * `getFeatureTables()`: the table names held in gpkg_geometry_columns, or the empty
   * list when that catalog table was never provisioned.
   */
  function ListFeatureTables(db: Db, engine: Engine): (r: Result<seq<string>>)
    ensures r.Success? <==>
      engine.Fault(ExistsQuery(GpkgGeometryColumns)).None?
      && (Present(db, GpkgGeometryColumns) ==> engine.Fault(NamesQuery(GpkgGeometryColumns)).None?)
    ensures r.Success? && !Present(db, GpkgGeometryColumns) ==> r.value == []
    ensures r.Success? && Present(db, GpkgGeometryColumns) ==>
      |r.value| == |db.geometryColumns|
      && forall i :: 0 <= i < |r.value| ==> r.value[i] == db.geometryColumns[i].tableName
    // A failing existence check or names query is reported with the listing's message.
    ensures engine.Fault(ExistsQuery(GpkgGeometryColumns)).Some? ==>
      r == Failure(Rethrow(engine.Fault(ExistsQuery(GpkgGeometryColumns)).value, FeatureTablesFailedMessage))
    ensures (engine.Fault(ExistsQuery(GpkgGeometryColumns)).None? && Present(db, GpkgGeometryColumns)
             && engine.Fault(NamesQuery(GpkgGeometryColumns)).Some?) ==>
      r == Failure(Rethrow(engine.Fault(NamesQuery(GpkgGeometryColumns)).value, FeatureTablesFailedMessage))
    ensures r.Failure? ==> !r.error.SQLException?
  {
    match TableExists(db, GpkgGeometryColumns, engine)
    case Failure(e) => Failure(Rethrow(e, FeatureTablesFailedMessage))
    case Success(present) =>
      if !present then Success([])
      else
        match QueryFeatureTables(db, engine)
        case Failure(e) => Failure(Rethrow(e, FeatureTablesFailedMessage))
        case Success(names) => Success(names)
  }

  /**
   * `getTileTables()`: the table names held in gpkg_tile_matrix_set, or the empty list
   * when that catalog table was never provisioned.
   */
  function ListTileTables(db: Db, engine: Engine): (r: Result<seq<string>>)
    ensures r.Success? <==>
      engine.Fault(ExistsQuery(GpkgTileMatrixSet)).None?
      && (Present(db, GpkgTileMatrixSet) ==> engine.Fault(NamesQuery(GpkgTileMatrixSet)).None?)
    ensures r.Success? && !Present(db, GpkgTileMatrixSet) ==> r.value == []
    ensures r.Success? && Present(db, GpkgTileMatrixSet) ==>
      |r.value| == |db.tileMatrixSets|
      && forall i :: 0 <= i < |r.value| ==> r.value[i] == db.tileMatrixSets[i].tableName
    // A failing existence check or names query is reported with the listing's message.
    ensures engine.Fault(ExistsQuery(GpkgTileMatrixSet)).Some? ==>
      r == Failure(Rethrow(engine.Fault(ExistsQuery(GpkgTileMatrixSet)).value, TileTablesFailedMessage))
    ensures (engine.Fault(ExistsQuery(GpkgTileMatrixSet)).None? && Present(db, GpkgTileMatrixSet)
             && engine.Fault(NamesQuery(GpkgTileMatrixSet)).Some?) ==>
      r == Failure(Rethrow(engine.Fault(NamesQuery(GpkgTileMatrixSet)).value, TileTablesFailedMessage))
    ensures r.Failure? ==> !r.error.SQLException?
  {
    match TableExists(db, GpkgTileMatrixSet, engine)
    case Failure(e) => Failure(Rethrow(e, TileTablesFailedMessage))
    case Success(present) =>
      if !present then Success([])
      else
        match QueryTileTables(db, engine)
        case Failure(e) => Failure(Rethrow(e, TileTablesFailedMessage))
        case Success(names) => Success(names)
  }

  /**
   * The catch clauses of both workflows: drop the new user table quietly, then rethrow
   * an unchecked exception unchanged or wrap a storage exception with the table name.
   */
  function AbandonTable<T>(db: Db, tableName: string, e: Exception, engine: Engine): (o: Outcome<T>)
    ensures o.db == DeleteTableQuietly(db, tableName, engine).db
    ensures o.result == Failure(Rethrow(e, MetadataFailedMessage(tableName)))
    // The cleanup only ever removes: no row or table appears, the SRSs and catalog stay.
    ensures o.db.srs == db.srs && o.db.catalog == db.catalog
    ensures o.db.tables.Keys <= db.tables.Keys && o.db.contents.Keys <= db.contents.Keys
    ensures forall r :: r in o.db.geometryColumns ==> r in db.geometryColumns
    ensures forall r :: r in o.db.tileMatrixSets ==> r in db.tileMatrixSets
  {
    Outcome(DeleteTableQuietly(db, tableName, engine).db, Failure(Rethrow(e, MetadataFailedMessage(tableName))))
  }

  /** The contents row a new feature table gets. */
  function FeatureContents(tableName: string, boundingBox: BoundingBox, srs: SpatialReferenceSystem): Contents
  {
    Contents(tableName, Features, tableName, None,
      boundingBox.minLongitude, boundingBox.minLatitude,
      boundingBox.maxLongitude, boundingBox.maxLatitude, srs.srsId)
  }

  /** The contents row a new tile table gets. */
  function TileContents(tableName: string, boundingBox: BoundingBox, srs: SpatialReferenceSystem): Contents
  {
    Contents(tableName, Tiles, tableName, None,
      boundingBox.minLongitude, boundingBox.minLatitude,
      boundingBox.maxLongitude, boundingBox.maxLatitude, srs.srsId)
  }

  /**
   * The try block of the feature workflow, run once the user table exists: insert the
   * contents row, link the descriptor to it and insert the descriptor, abandoning the
   * table if either insert fails.
   */
  function FeatureMetadata(
    db: Db, geometryColumns: GeometryColumns, boundingBox: BoundingBox,
    srs: SpatialReferenceSystem, engine: Engine)
    : (o: Outcome<GeometryColumns>)
    ensures o.db.srs == db.srs && o.db.catalog == db.catalog
    ensures forall r :: r in o.db.tileMatrixSets ==> r in db.tileMatrixSets
    ensures o.result.Failure? ==> forall r :: r in o.db.geometryColumns ==> r in db.geometryColumns
    ensures o.result.Success? ==>
      var name := geometryColumns.tableName;
      && name !in db.contents
      && o.result.value == geometryColumns.(srsId := srs.srsId)
      && o.db == db.(contents := db.contents[name := FeatureContents(name, boundingBox, srs)],
                     geometryColumns := db.geometryColumns + [o.result.value])
  {
    var name := geometryColumns.tableName;
    var contents := FeatureContents(name, boundingBox, srs);
    var withContents := InsertContents(db, contents, engine);
    if withContents.result.Failure? then AbandonTable(withContents.db, name, withContents.result.error, engine)
    else
      var linked := geometryColumns.(srsId := contents.srsId);
      var withDescriptor := InsertGeometryColumns(withContents.db, linked, engine);
      if withDescriptor.result.Failure? then AbandonTable(withDescriptor.db, name, withDescriptor.result.error, engine)
      else Outcome(withDescriptor.db, Success(linked))
  }

  /**
   * `createFeatureTableWithMetadata(geometryColumns, boundingBox, srsId)`: resolve the SRS,
   * ensure gpkg_geometry_columns, create the user table, then insert its contents row and
   * its geometry columns row, dropping the user table again if either insert fails.
   */
  function CreateFeatureTableWithMetadata(
    db: Db, geometryColumns: GeometryColumns, boundingBox: BoundingBox, srsId: Long, engine: Engine)
    : (o: Outcome<GeometryColumns>)
    // The SRS is resolved before anything is touched.
    ensures GetSrs(db, srsId, engine).Failure? ==>
      o == Outcome(db, Failure(GetSrs(db, srsId, engine).error))
    // Nothing outside the workflow's reach changes; no catalog table is lost, and the only
    // one that can appear is gpkg_geometry_columns.
    ensures o.db.srs == db.srs && db.catalog <= o.db.catalog <= db.catalog + {GpkgGeometryColumns}
    ensures forall r :: r in o.db.tileMatrixSets ==> r in db.tileMatrixSets
    // A failed workflow never leaves a new geometry columns row behind.
    ensures o.result.Failure? ==> forall r :: r in o.db.geometryColumns ==> r in db.geometryColumns
    // Every storage exception reaches the caller wrapped, as the Java signature declares none.
    ensures ThrowsAsDeclared(engine) && o.result.Failure? ==> !o.result.error.SQLException?
    // On success: the table with "id" and the geometry column, its FEATURES contents row
    // with the box and SRS, and the caller's descriptor, linked, appended to the catalog.
    ensures o.result.Success? ==>
      var name := geometryColumns.tableName;
      && srsId in db.srs
      && !NameTaken(db, name)
      && (forall kind :: kind in o.db.catalog ==> !SameName(TableName(kind), name))
      && o.db.tables == db.tables[name := FeatureColumns(geometryColumns)]
      && o.db.contents == db.contents[name := Contents(name, Features, name, None,
           boundingBox.minLongitude, boundingBox.minLatitude,
           boundingBox.maxLongitude, boundingBox.maxLatitude, db.srs[srsId].srsId)]
      && o.result.value == geometryColumns.(srsId := o.db.contents[name].srsId)
      && o.db.geometryColumns == db.geometryColumns + [o.result.value]
      && o.db.tileMatrixSets == db.tileMatrixSets
      && GpkgGeometryColumns in o.db.catalog
  {
    match GetSrs(db, srsId, engine)
    case Failure(e) => Outcome(db, Failure(e))
    case Success(srs) =>
      var ensured := EnsureTable(db, GpkgGeometryColumns, engine);
      if ensured.result.Failure? then Outcome(ensured.db, Failure(ensured.result.error))
      else
        var created := CreateTable(ensured.db, geometryColumns.tableName, FeatureColumns(geometryColumns), engine);
        if created.result.Failure? then Outcome(created.db, Failure(created.result.error))
        else FeatureMetadata(created.db, geometryColumns, boundingBox, srs, engine)
  }

  /**
   * The try block of the tile workflow, run once the user table exists: insert the
   * contents row, then the tile matrix set row with its own box and SRS, abandoning the
   * table if either insert fails.
   */
  function TileMetadata(
    db: Db, tableName: string, contentsBoundingBox: BoundingBox, contentsSrs: SpatialReferenceSystem,
    tileMatrixSetBoundingBox: BoundingBox, tileMatrixSetSrs: SpatialReferenceSystem, engine: Engine)
    : (o: Outcome<TileMatrixSet>)
    ensures o.db.srs == db.srs && o.db.catalog == db.catalog
    ensures forall r :: r in o.db.geometryColumns ==> r in db.geometryColumns
    ensures o.result.Failure? ==> forall r :: r in o.db.tileMatrixSets ==> r in db.tileMatrixSets
    ensures o.result.Success? ==>
      && tableName !in db.contents
      && o.result.value == TileMatrixSet(tableName, tileMatrixSetSrs.srsId,
           tileMatrixSetBoundingBox.minLongitude, tileMatrixSetBoundingBox.minLatitude,
           tileMatrixSetBoundingBox.maxLongitude, tileMatrixSetBoundingBox.maxLatitude)
      && o.db == db.(contents := db.contents[tableName := TileContents(tableName, contentsBoundingBox, contentsSrs)],
                     tileMatrixSets := db.tileMatrixSets + [o.result.value])
  {
    var contents := TileContents(tableName, contentsBoundingBox, contentsSrs);
    var withContents := InsertContents(db, contents, engine);
    if withContents.result.Failure? then AbandonTable(withContents.db, tableName, withContents.result.error, engine)
    else
      var tileMatrixSet := TileMatrixSet(tableName, tileMatrixSetSrs.srsId,
        tileMatrixSetBoundingBox.minLongitude, tileMatrixSetBoundingBox.minLatitude,
        tileMatrixSetBoundingBox.maxLongitude, tileMatrixSetBoundingBox.maxLatitude);
      var withDescriptor := InsertTileMatrixSet(withContents.db, tileMatrixSet, engine);
      if withDescriptor.result.Failure? then AbandonTable(withDescriptor.db, tableName, withDescriptor.result.error, engine)
      else Outcome(withDescriptor.db, Success(tileMatrixSet))
  }

  /**
   * `createTileTableWithMetadata(tableName, contentsBoundingBox, contentsSrsId,
   * tileMatrixSetBoundingBox, tileMatrixSetSrsId)`: resolve both SRSs, ensure
   * gpkg_tile_matrix_set and gpkg_tile_matrix, create the user tile table, then insert its
   * contents row and its tile matrix set row, dropping the table again if either fails.
   */
  function CreateTileTableWithMetadata(
    db: Db, tableName: string, contentsBoundingBox: BoundingBox, contentsSrsId: Long,
    tileMatrixSetBoundingBox: BoundingBox, tileMatrixSetSrsId: Long, engine: Engine)
    : (o: Outcome<TileMatrixSet>)
    // Both SRSs are resolved, contents first, before anything is touched.
    ensures GetSrs(db, contentsSrsId, engine).Failure? ==>
      o == Outcome(db, Failure(GetSrs(db, contentsSrsId, engine).error))
    ensures GetSrs(db, contentsSrsId, engine).Success? && GetSrs(db, tileMatrixSetSrsId, engine).Failure? ==>
      o == Outcome(db, Failure(GetSrs(db, tileMatrixSetSrsId, engine).error))
    ensures o.db.srs == db.srs && db.catalog <= o.db.catalog <= db.catalog + {GpkgTileMatrixSet, GpkgTileMatrix}
    ensures forall r :: r in o.db.geometryColumns ==> r in db.geometryColumns
    ensures o.result.Failure? ==> forall r :: r in o.db.tileMatrixSets ==> r in db.tileMatrixSets
    // Every storage exception reaches the caller wrapped, as the Java signature declares none.
    ensures ThrowsAsDeclared(engine) && o.result.Failure? ==> !o.result.error.SQLException?
    // On success: the tile table, a TILES contents row with the contents box and SRS, and
    // a tile matrix set row with its own box and SRS.
    ensures o.result.Success? ==>
      && contentsSrsId in db.srs && tileMatrixSetSrsId in db.srs
      && !NameTaken(db, tableName)
      && (forall kind :: kind in o.db.catalog ==> !SameName(TableName(kind), tableName))
      && o.db.tables == db.tables[tableName := RequiredTileColumns()]
      && o.db.contents == db.contents[tableName := Contents(tableName, Tiles, tableName, None,
           contentsBoundingBox.minLongitude, contentsBoundingBox.minLatitude,
           contentsBoundingBox.maxLongitude, contentsBoundingBox.maxLatitude,
           db.srs[contentsSrsId].srsId)]
      && o.result.value == TileMatrixSet(tableName, db.srs[tileMatrixSetSrsId].srsId,
           tileMatrixSetBoundingBox.minLongitude, tileMatrixSetBoundingBox.minLatitude,
           tileMatrixSetBoundingBox.maxLongitude, tileMatrixSetBoundingBox.maxLatitude)
      && o.db.tileMatrixSets == db.tileMatrixSets + [o.result.value]
      && o.db.geometryColumns == db.geometryColumns
      && GpkgTileMatrixSet in o.db.catalog
  {
    match GetSrs(db, contentsSrsId, engine)
    case Failure(e) => Outcome(db, Failure(e))
    case Success(contentsSrs) =>
      match GetSrs(db, tileMatrixSetSrsId, engine)
      case Failure(e) => Outcome(db, Failure(e))
      case Success(tileMatrixSetSrs) =>
        var setTable := EnsureTable(db, GpkgTileMatrixSet, engine);
        if setTable.result.Failure? then Outcome(setTable.db, Failure(setTable.result.error))
        else
          var matrixTable := EnsureTable(setTable.db, GpkgTileMatrix, engine);
          if matrixTable.result.Failure? then Outcome(matrixTable.db, Failure(matrixTable.result.error))
          else
            var created := CreateTable(matrixTable.db, tableName, RequiredTileColumns(), engine);
            if created.result.Failure? then Outcome(created.db, Failure(created.result.error))
            else TileMetadata(created.db, tableName, contentsBoundingBox, contentsSrs,
                   tileMatrixSetBoundingBox, tileMatrixSetSrs, engine)
  }
}
