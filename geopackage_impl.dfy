/**
 * GeoPackageImpl: a handle on one GeoPackage whose methods update the catalog state in
 * place, step by step as the Java class does, each proved to end in the state and result
 * that the matching function of Operations describes. Because each method's new
 * `Snapshot()` is such a function's state, the lemmas of Properties carry over to a
 * handle: DeleteTableKeepsValid, FeatureKeepsValid, TileKeepsValid and
 * EnsureTableKeepsValid show that a handle on a well-formed GeoPackage stays well-formed.
 */
module Factory {
  import opened Catalog
  import opened CatalogState
  import Operations

  /** A data access object handed out by the factory, bound to one catalog table or view. */
  datatype Dao = Dao(dataClass: TableKind)

  class GeoPackageImpl {
    var tables: map<string, seq<Column>>
    var srs: map<Long, SpatialReferenceSystem>
    var contents: map<string, Contents>
    var geometryColumns: seq<GeometryColumns>
    var tileMatrixSets: seq<TileMatrixSet>
    var catalog: set<TableKind>

    /** The database this handle is open on. */
    function Snapshot(): Db
      reads this
    {
      Db(tables, srs, contents, geometryColumns, tileMatrixSets, catalog)
    }

    /** Open a handle on an existing database. */
    constructor (db: Db)
      ensures Snapshot() == db
    {
      tables := db.tables;
      srs := db.srs;
      contents := db.contents;
      geometryColumns := db.geometryColumns;
      tileMatrixSets := db.tileMatrixSets;
      catalog := db.catalog;
    }

    // The storage engine as the factory reaches it: DAO and table-creator calls. Each one
    // updates the fields in place, and is proved against the CatalogState function that
    // specifies it on values. Both are kept on purpose: the methods below are the steps
    // the Java runs, and the lemmas about whole workflows can only use the functions.

    method IsTableExists(kind: TableKind, engine: Engine) returns (r: Result<bool>)
      ensures r == TableExists(Snapshot(), kind, engine)
    {
      match engine.Fault(ExistsQuery(kind)) {
        case Some(e) => r := Failure(e);
        case None =>
          r := Success(kind in catalog || exists t :: t in tables && SameName(t, TableName(kind)));
      }
    }

    method RunCreateScript(kind: TableKind, engine: Engine) returns (r: Result<nat>)
      modifies this
      ensures Snapshot() == RunScript(old(Snapshot()), kind, engine).db
      ensures r == RunScript(old(Snapshot()), kind, engine).result
    {
      match engine.Fault(CreateScript(kind)) {
        case Some(e) => r := Failure(e);
        case None =>
          var count := engine.scriptStatements(kind);
          if count > 0 {
            catalog := catalog + {kind};
          }
          r := Success(count);
      }
    }

    method ExecuteCreateTable(name: string, columns: seq<Column>, engine: Engine) returns (r: Result<()>)
      modifies this
      ensures Snapshot() == CreateTable(old(Snapshot()), name, columns, engine).db
      ensures r == CreateTable(old(Snapshot()), name, columns, engine).result
    {
      match engine.Fault(CreateTableDdl(name)) {
        case Some(e) => r := Failure(e);
        case None =>
          if (exists t :: t in tables && SameName(t, name))
             || (exists kind :: kind in catalog && SameName(TableName(kind), name)) {
            r := Failure(TableAlreadyExists(name));
          } else {
            tables := tables[name := columns];
            r := Success(());
          }
      }
    }

    method QueryForId(srsId: Long, engine: Engine) returns (r: Result<Option<SpatialReferenceSystem>>)
      ensures r == FindSrs(Snapshot(), srsId, engine)
    {
      match engine.Fault(SrsQuery(srsId)) {
        case Some(e) => r := Failure(e);
        case None => r := Success(if srsId in srs then Some(srs[srsId]) else None);
      }
    }

    method CreateContentsRow(row: Contents, engine: Engine) returns (r: Result<()>)
      modifies this
      ensures Snapshot() == InsertContents(old(Snapshot()), row, engine).db
      ensures r == InsertContents(old(Snapshot()), row, engine).result
    {
      match engine.Fault(RowInsert(GpkgContents, row.tableName)) {
        case Some(e) => r := Failure(e);
        case None =>
          if GpkgContents !in catalog {
            r := Failure(NoSuchTable(GpkgContents));
          } else if row.tableName in contents {
            r := Failure(UniqueViolation(GpkgContents));
          } else {
            contents := contents[row.tableName := row];
            r := Success(());
          }
      }
    }

    method CreateGeometryColumnsRow(row: GeometryColumns, engine: Engine) returns (r: Result<()>)
      modifies this
      ensures Snapshot() == InsertGeometryColumns(old(Snapshot()), row, engine).db
      ensures r == InsertGeometryColumns(old(Snapshot()), row, engine).result
    {
      match engine.Fault(RowInsert(GpkgGeometryColumns, row.tableName)) {
        case Some(e) => r := Failure(e);
        case None =>
          if GpkgGeometryColumns !in catalog {
            r := Failure(NoSuchTable(GpkgGeometryColumns));
          } else if exists i :: 0 <= i < |geometryColumns| && geometryColumns[i].tableName == row.tableName {
            r := Failure(UniqueViolation(GpkgGeometryColumns));
          } else {
            geometryColumns := geometryColumns + [row];
            r := Success(());
          }
      }
    }

    method CreateTileMatrixSetRow(row: TileMatrixSet, engine: Engine) returns (r: Result<()>)
      modifies this
      ensures Snapshot() == InsertTileMatrixSet(old(Snapshot()), row, engine).db
      ensures r == InsertTileMatrixSet(old(Snapshot()), row, engine).result
    {
      match engine.Fault(RowInsert(GpkgTileMatrixSet, row.tableName)) {
        case Some(e) => r := Failure(e);
        case None =>
          if GpkgTileMatrixSet !in catalog {
            r := Failure(NoSuchTable(GpkgTileMatrixSet));
          } else if exists i :: 0 <= i < |tileMatrixSets| && tileMatrixSets[i].tableName == row.tableName {
            r := Failure(UniqueViolation(GpkgTileMatrixSet));
          } else {
            tileMatrixSets := tileMatrixSets + [row];
            r := Success(());
          }
      }
    }

    method ContentsDeleteTable(name: string, engine: Engine) returns (r: Result<()>)
      modifies this
      ensures Snapshot() == DropTable(old(Snapshot()), name, engine).db
      ensures r == DropTable(old(Snapshot()), name, engine).result
    {
      match engine.Fault(ContentsDelete(name)) {
        case Some(e) => r := Failure(e);
        case None =>
          tables := tables - {name};
          contents := contents - {name};
          geometryColumns := RowsNotOf(geometryColumns, GeometryColumnsTable, name);
          tileMatrixSets := RowsNotOf(tileMatrixSets, TileMatrixSetTable, name);
          r := Success(());
      }
    }

    method QueryFeatureTableNames(engine: Engine) returns (r: Result<seq<string>>)
      ensures r == QueryFeatureTables(Snapshot(), engine)
    {
      match engine.Fault(NamesQuery(GpkgGeometryColumns)) {
        case Some(e) => r := Failure(e);
        case None => r := Success(TableNames(geometryColumns, GeometryColumnsTable));
      }
    }

    method QueryTileTableNames(engine: Engine) returns (r: Result<seq<string>>)
      ensures r == QueryTileTables(Snapshot(), engine)
    {
      match engine.Fault(NamesQuery(GpkgTileMatrixSet)) {
        case Some(e) => r := Failure(e);
        case None => r := Success(TableNames(tileMatrixSets, TileMatrixSetTable));
      }
    }

    // Listing.

    /** The feature table names, or an empty list when gpkg_geometry_columns is absent. */
    method GetFeatureTables(engine: Engine) returns (r: Result<seq<string>>)
      ensures r == Operations.ListFeatureTables(Snapshot(), engine)
      ensures r.Success? && !Present(Snapshot(), GpkgGeometryColumns) ==> r.value == []
      ensures r.Success? && Present(Snapshot(), GpkgGeometryColumns) ==>
        forall n :: n in r.value <==> exists i :: 0 <= i < |geometryColumns| && geometryColumns[i].tableName == n
    {
      var tableNames: Option<seq<string>> := None;
      var present := IsTableExists(GpkgGeometryColumns, engine);
      if present.Failure? {
        return Failure(Rethrow(present.error, Operations.FeatureTablesFailedMessage));
      }
      if present.value {
        var names := QueryFeatureTableNames(engine);
        if names.Failure? {
          return Failure(Rethrow(names.error, Operations.FeatureTablesFailedMessage));
        }
        tableNames := Some(names.value);
      }
      if tableNames.None? {
        tableNames := Some([]);
      }
      r := Success(tableNames.value);
      if r.Success? && Present(Snapshot(), GpkgGeometryColumns) {
        forall n | n in r.value
          ensures exists i :: 0 <= i < |geometryColumns| && geometryColumns[i].tableName == n
        {
          var k :| 0 <= k < |r.value| && r.value[k] == n;
          assert geometryColumns[k].tableName == n;
        }
        forall n | exists i :: 0 <= i < |geometryColumns| && geometryColumns[i].tableName == n
          ensures n in r.value
        {
          var k :| 0 <= k < |geometryColumns| && geometryColumns[k].tableName == n;
          assert r.value[k] == n;
        }
      }
    }

    /** The tile table names, or an empty list when gpkg_tile_matrix_set is absent. */
    method GetTileTables(engine: Engine) returns (r: Result<seq<string>>)
      ensures r == Operations.ListTileTables(Snapshot(), engine)
      ensures r.Success? && !Present(Snapshot(), GpkgTileMatrixSet) ==> r.value == []
      ensures r.Success? && Present(Snapshot(), GpkgTileMatrixSet) ==>
        forall n :: n in r.value <==> exists i :: 0 <= i < |tileMatrixSets| && tileMatrixSets[i].tableName == n
    {
      var tableNames: Option<seq<string>> := None;
      var present := IsTableExists(GpkgTileMatrixSet, engine);
      if present.Failure? {
        return Failure(Rethrow(present.error, Operations.TileTablesFailedMessage));
      }
      if present.value {
        var names := QueryTileTableNames(engine);
        if names.Failure? {
          return Failure(Rethrow(names.error, Operations.TileTablesFailedMessage));
        }
        tableNames := Some(names.value);
      }
      if tableNames.None? {
        tableNames := Some([]);
      }
      r := Success(tableNames.value);
      if r.Success? && Present(Snapshot(), GpkgTileMatrixSet) {
        forall n | n in r.value
          ensures exists i :: 0 <= i < |tileMatrixSets| && tileMatrixSets[i].tableName == n
        {
          var k :| 0 <= k < |r.value| && r.value[k] == n;
          assert tileMatrixSets[k].tableName == n;
        }
        forall n | exists i :: 0 <= i < |tileMatrixSets| && tileMatrixSets[i].tableName == n
          ensures n in r.value
        {
          var k :| 0 <= k < |tileMatrixSets| && tileMatrixSets[k].tableName == n;
          assert r.value[k] == n;
        }
      }
    }

    // Catalog tables that are created on demand.

    /** The shared body of every `create<Kind>Table()`: create the table only when absent. */
    method CreateCatalogTable(kind: TableKind, engine: Engine) returns (r: Result<bool>)
      modifies this
      ensures Snapshot() == Operations.EnsureTable(old(Snapshot()), kind, engine).db
      ensures r == Operations.EnsureTable(old(Snapshot()), kind, engine).result
      ensures catalog == old(catalog) || catalog == old(catalog) + {kind}
      ensures r == Success(true) <==> kind !in old(catalog) && kind in catalog
    {
      var created := false;
      var present := IsTableExists(kind, engine);
      if present.Failure? {
        return Failure(Rethrow(present.error, Operations.CheckAndCreateMessage(kind)));
      }
      if !present.value {
        var count := RunCreateScript(kind, engine);
        if count.Failure? {
          return Failure(Rethrow(count.error, Operations.CheckAndCreateMessage(kind)));
        }
        created := count.value > 0;
      }
      return Success(created);
    }

    method CreateGeometryColumnsTable(engine: Engine) returns (r: Result<bool>)
      modifies this
      ensures Snapshot() == Operations.EnsureTable(old(Snapshot()), GpkgGeometryColumns, engine).db
      ensures r == Operations.EnsureTable(old(Snapshot()), GpkgGeometryColumns, engine).result
    {
      r := CreateCatalogTable(GpkgGeometryColumns, engine);
    }

    method CreateTileMatrixSetTable(engine: Engine) returns (r: Result<bool>)
      modifies this
      ensures Snapshot() == Operations.EnsureTable(old(Snapshot()), GpkgTileMatrixSet, engine).db
      ensures r == Operations.EnsureTable(old(Snapshot()), GpkgTileMatrixSet, engine).result
    {
      r := CreateCatalogTable(GpkgTileMatrixSet, engine);
    }

    method CreateTileMatrixTable(engine: Engine) returns (r: Result<bool>)
      modifies this
      ensures Snapshot() == Operations.EnsureTable(old(Snapshot()), GpkgTileMatrix, engine).db
      ensures r == Operations.EnsureTable(old(Snapshot()), GpkgTileMatrix, engine).result
    {
      r := CreateCatalogTable(GpkgTileMatrix, engine);
    }

    method CreateDataColumnsTable(engine: Engine) returns (r: Result<bool>)
      modifies this
      ensures Snapshot() == Operations.EnsureTable(old(Snapshot()), GpkgDataColumns, engine).db
      ensures r == Operations.EnsureTable(old(Snapshot()), GpkgDataColumns, engine).result
    {
      r := CreateCatalogTable(GpkgDataColumns, engine);
    }

    method CreateDataColumnConstraintsTable(engine: Engine) returns (r: Result<bool>)
      modifies this
      ensures Snapshot() == Operations.EnsureTable(old(Snapshot()), GpkgDataColumnConstraints, engine).db
      ensures r == Operations.EnsureTable(old(Snapshot()), GpkgDataColumnConstraints, engine).result
    {
      r := CreateCatalogTable(GpkgDataColumnConstraints, engine);
    }

    method CreateMetadataTable(engine: Engine) returns (r: Result<bool>)
      modifies this
      ensures Snapshot() == Operations.EnsureTable(old(Snapshot()), GpkgMetadata, engine).db
      ensures r == Operations.EnsureTable(old(Snapshot()), GpkgMetadata, engine).result
    {
      r := CreateCatalogTable(GpkgMetadata, engine);
    }

    method CreateMetadataReferenceTable(engine: Engine) returns (r: Result<bool>)
      modifies this
      ensures Snapshot() == Operations.EnsureTable(old(Snapshot()), GpkgMetadataReference, engine).db
      ensures r == Operations.EnsureTable(old(Snapshot()), GpkgMetadataReference, engine).result
    {
      r := CreateCatalogTable(GpkgMetadataReference, engine);
    }

    method CreateExtensionsTable(engine: Engine) returns (r: Result<bool>)
      modifies this
      ensures Snapshot() == Operations.EnsureTable(old(Snapshot()), GpkgExtensions, engine).db
      ensures r == Operations.EnsureTable(old(Snapshot()), GpkgExtensions, engine).result
    {
      r := CreateCatalogTable(GpkgExtensions, engine);
    }

    // Strict accessors for the optional SQL/MM and SF/SQL views: never create, only check.

    method VerifyTableExists(kind: TableKind, engine: Engine) returns (r: Result<()>)
      ensures r == Operations.VerifyTableExists(Snapshot(), kind, engine)
      ensures r.Success? <==> engine.Fault(ExistsQuery(kind)).None? && Present(Snapshot(), kind)
    {
      var present := IsTableExists(kind, engine);
      if present.Failure? {
        return Failure(Rethrow(present.error, Operations.DetectFailedMessage(kind)));
      }
      if !present.value {
        return Failure(GeoPackageException(Operations.MissingTableMessage(kind), None));
      }
      return Success(());
    }

    method GetSpatialReferenceSystemSqlMmDao(engine: Engine) returns (r: Result<Dao>)
      ensures r.Success? <==> engine.Fault(ExistsQuery(SqlMmSpatialRefSys)).None? && Present(Snapshot(), SqlMmSpatialRefSys)
      ensures r.Success? ==> r.value == Dao(SqlMmSpatialRefSys)
      ensures r.Failure? ==> r.error == Operations.VerifyTableExists(Snapshot(), SqlMmSpatialRefSys, engine).error
    {
      var dao := Dao(SqlMmSpatialRefSys);
      var verified := VerifyTableExists(dao.dataClass, engine);
      if verified.Failure? {
        return Failure(verified.error);
      }
      return Success(dao);
    }

    method GetSpatialReferenceSystemSfSqlDao(engine: Engine) returns (r: Result<Dao>)
      ensures r.Success? <==> engine.Fault(ExistsQuery(SfSqlSpatialRefSys)).None? && Present(Snapshot(), SfSqlSpatialRefSys)
      ensures r.Success? ==> r.value == Dao(SfSqlSpatialRefSys)
      ensures r.Failure? ==> r.error == Operations.VerifyTableExists(Snapshot(), SfSqlSpatialRefSys, engine).error
    {
      var dao := Dao(SfSqlSpatialRefSys);
      var verified := VerifyTableExists(dao.dataClass, engine);
      if verified.Failure? {
        return Failure(verified.error);
      }
      return Success(dao);
    }

    method GetGeometryColumnsSqlMmDao(engine: Engine) returns (r: Result<Dao>)
      ensures r.Success? <==> engine.Fault(ExistsQuery(SqlMmGeometryColumns)).None? && Present(Snapshot(), SqlMmGeometryColumns)
      ensures r.Success? ==> r.value == Dao(SqlMmGeometryColumns)
      ensures r.Failure? ==> r.error == Operations.VerifyTableExists(Snapshot(), SqlMmGeometryColumns, engine).error
    {
      var dao := Dao(SqlMmGeometryColumns);
      var verified := VerifyTableExists(dao.dataClass, engine);
      if verified.Failure? {
        return Failure(verified.error);
      }
      return Success(dao);
    }

    method GetGeometryColumnsSfSqlDao(engine: Engine) returns (r: Result<Dao>)
      ensures r.Success? <==> engine.Fault(ExistsQuery(SfSqlGeometryColumns)).None? && Present(Snapshot(), SfSqlGeometryColumns)
      ensures r.Success? ==> r.value == Dao(SfSqlGeometryColumns)
      ensures r.Failure? ==> r.error == Operations.VerifyTableExists(Snapshot(), SfSqlGeometryColumns, engine).error
    {
      var dao := Dao(SfSqlGeometryColumns);
      var verified := VerifyTableExists(dao.dataClass, engine);
      if verified.Failure? {
        return Failure(verified.error);
      }
      return Success(dao);
    }

    // Deletion.

    method DeleteTable(tableName: string, engine: Engine) returns (r: Result<()>)
      modifies this
      ensures Snapshot() == Operations.DeleteTable(old(Snapshot()), tableName, engine).db
      ensures r == Operations.DeleteTable(old(Snapshot()), tableName, engine).result
    {
      r := ContentsDeleteTable(tableName, engine);
    }

    /** Delete, and return normally whatever the delete did. */
    method DeleteTableQuietly(tableName: string, engine: Engine)
      modifies this
      ensures Snapshot() == Operations.DeleteTableQuietly(old(Snapshot()), tableName, engine).db
      ensures Snapshot() == old(Snapshot()) || Snapshot() == Dropped(old(Snapshot()), tableName)
    {
      var ignored := DeleteTable(tableName, engine);
    }

    // User tables with their metadata.

    method GetSrs(srsId: Long, engine: Engine) returns (r: Result<SpatialReferenceSystem>)
      ensures r == Operations.GetSrs(Snapshot(), srsId, engine)
      ensures r.Success? <==> engine.Fault(SrsQuery(srsId)).None? && srsId in srs
      ensures r.Success? ==> r.value == srs[srsId]
    {
      var found := QueryForId(srsId, engine);
      if found.Failure? {
        if found.error.SQLException? {
          return Failure(GeoPackageException(Operations.SrsQueryFailedMessage(srsId), None));
        }
        return Failure(found.error);
      }
      if found.value.None? {
        return Failure(GeoPackageException(Operations.SrsNotFoundMessage(srsId), None));
      }
      return Success(found.value.value);
    }

    method CreateFeatureTable(tableName: string, columns: seq<Column>, engine: Engine) returns (r: Result<()>)
      modifies this
      ensures Snapshot() == CreateTable(old(Snapshot()), tableName, columns, engine).db
      ensures r == CreateTable(old(Snapshot()), tableName, columns, engine).result
    {
      r := ExecuteCreateTable(tableName, columns, engine);
    }

    method CreateTileTable(tableName: string, columns: seq<Column>, engine: Engine) returns (r: Result<()>)
      modifies this
      ensures Snapshot() == CreateTable(old(Snapshot()), tableName, columns, engine).db
      ensures r == CreateTable(old(Snapshot()), tableName, columns, engine).result
    {
      r := ExecuteCreateTable(tableName, columns, engine);
    }

    method CreateFeatureTableWithMetadata(
      geometryColumns: GeometryColumns, boundingBox: BoundingBox, srsId: Long, engine: Engine)
      returns (r: Result<GeometryColumns>)
      modifies this
      ensures Snapshot() == Operations.CreateFeatureTableWithMetadata(
        old(Snapshot()), geometryColumns, boundingBox, srsId, engine).db
      ensures r == Operations.CreateFeatureTableWithMetadata(
        old(Snapshot()), geometryColumns, boundingBox, srsId, engine).result
    {
      var srs := GetSrs(srsId, engine);
      if srs.Failure? {
        return Failure(srs.error);
      }
      var ensured := CreateGeometryColumnsTable(engine);
      if ensured.Failure? {
        return Failure(ensured.error);
      }
      var tableName := geometryColumns.tableName;
      var created := CreateFeatureTable(tableName, FeatureColumns(geometryColumns), engine);
      if created.Failure? {
        return Failure(created.error);
      }
      // try
      var row := Operations.FeatureContents(tableName, boundingBox, srs.value);
      var inserted := CreateContentsRow(row, engine);
      if inserted.Failure? {
        DeleteTableQuietly(tableName, engine);
        return Failure(Rethrow(inserted.error, Operations.MetadataFailedMessage(tableName)));
      }
      var linked := geometryColumns.(srsId := row.srsId);
      inserted := CreateGeometryColumnsRow(linked, engine);
      if inserted.Failure? {
        DeleteTableQuietly(tableName, engine);
        return Failure(Rethrow(inserted.error, Operations.MetadataFailedMessage(tableName)));
      }
      return Success(linked);
    }

    method CreateTileTableWithMetadata(
      tableName: string, contentsBoundingBox: BoundingBox, contentsSrsId: Long,
      tileMatrixSetBoundingBox: BoundingBox, tileMatrixSetSrsId: Long, engine: Engine)
      returns (r: Result<TileMatrixSet>)
      modifies this
      ensures Snapshot() == Operations.CreateTileTableWithMetadata(old(Snapshot()), tableName,
        contentsBoundingBox, contentsSrsId, tileMatrixSetBoundingBox, tileMatrixSetSrsId, engine).db
      ensures r == Operations.CreateTileTableWithMetadata(old(Snapshot()), tableName,
        contentsBoundingBox, contentsSrsId, tileMatrixSetBoundingBox, tileMatrixSetSrsId, engine).result
    {
      var contentsSrs := GetSrs(contentsSrsId, engine);
      if contentsSrs.Failure? {
        return Failure(contentsSrs.error);
      }
      var tileMatrixSetSrs := GetSrs(tileMatrixSetSrsId, engine);
      if tileMatrixSetSrs.Failure? {
        return Failure(tileMatrixSetSrs.error);
      }
      var ensured := CreateTileMatrixSetTable(engine);
      if ensured.Failure? {
        return Failure(ensured.error);
      }
      ensured := CreateTileMatrixTable(engine);
      if ensured.Failure? {
        return Failure(ensured.error);
      }
      var created := CreateTileTable(tableName, RequiredTileColumns(), engine);
      if created.Failure? {
        return Failure(created.error);
      }
      // try
      var row := Operations.TileContents(tableName, contentsBoundingBox, contentsSrs.value);
      var inserted := CreateContentsRow(row, engine);
      if inserted.Failure? {
        DeleteTableQuietly(tableName, engine);
        return Failure(Rethrow(inserted.error, Operations.MetadataFailedMessage(tableName)));
      }
      var tileMatrixSet := TileMatrixSet(tableName, tileMatrixSetSrs.value.srsId,
        tileMatrixSetBoundingBox.minLongitude, tileMatrixSetBoundingBox.minLatitude,
        tileMatrixSetBoundingBox.maxLongitude, tileMatrixSetBoundingBox.maxLatitude);
      inserted := CreateTileMatrixSetRow(tileMatrixSet, engine);
      if inserted.Failure? {
        DeleteTableQuietly(tableName, engine);
        return Failure(Rethrow(inserted.error, Operations.MetadataFailedMessage(tableName)));
      }
      return Success(tileMatrixSet);
    }
  }
}
