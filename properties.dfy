/**
 * What the factory's workflows promise across calls and over well-formed databases:
 * exactly when they succeed, that a failure leaves the database as it was (or, when the
 * cleanup itself fails, with only the orphaned user table), that they keep the
 * GeoPackage well-formed, that catalog tables are created at most once, and that a new
 * table is listed and a deleted one is not.
 */
module Properties {
  import opened Catalog
  import opened CatalogState
  import opened Operations

  // ---------------------------------------------------------------------------------
  // Descriptor row helpers
  // ---------------------------------------------------------------------------------

  /** Filtering out a name no row carries changes nothing. */
  lemma {:induction false} RowsNotOfAbsent<R(!new)>(rows: seq<R>, tableName: R -> string, name: string)
    requires forall i :: 0 <= i < |rows| ==> tableName(rows[i]) != name
    ensures RowsNotOf(rows, tableName, name) == rows
  {
    if rows != [] {
      RowsNotOfAbsent(rows[1..], tableName, name);
      assert [rows[0]] + rows[1..] == rows;
    }
  }

  /** No two rows carry the same table name. */
  predicate DistinctNames<R>(rows: seq<R>, tableName: R -> string)
  {
    forall i, j :: 0 <= i < j < |rows| ==> tableName(rows[i]) != tableName(rows[j])
  }

  /** The rows after the first of a list with distinct names have distinct names. */
  lemma TailDistinct<R>(rows: seq<R>, tableName: R -> string)
    requires rows != [] && DistinctNames(rows, tableName)
    ensures DistinctNames(rows[1..], tableName)
    ensures forall r :: r in rows[1..] ==> tableName(r) != tableName(rows[0])
  {
    var tail := rows[1..];
    forall i, j | 0 <= i < j < |tail|
      ensures tableName(tail[i]) != tableName(tail[j])
    {
      assert tail[i] == rows[i + 1] && tail[j] == rows[j + 1];
    }
    forall r | r in tail
      ensures tableName(r) != tableName(rows[0])
    {
      var m :| 0 <= m < |tail| && tail[m] == r;
      assert rows[m + 1] == r;
    }
  }

  /** A row whose name no other row carries can go in front of a list with distinct names. */
  lemma ConsDistinct<R>(row: R, rows: seq<R>, tableName: R -> string)
    requires DistinctNames(rows, tableName)
    requires forall r :: r in rows ==> tableName(r) != tableName(row)
    ensures DistinctNames([row] + rows, tableName)
  {
    var all := [row] + rows;
    forall i, j | 0 <= i < j < |all|
      ensures tableName(all[i]) != tableName(all[j])
    {
      assert all[j] == rows[j - 1] && all[j] in rows;
      if i > 0 {
        assert all[i] == rows[i - 1];
      }
    }
  }

  /** Filtering keeps table_name unique. */
  lemma {:induction false} RowsNotOfDistinct<R(!new)>(rows: seq<R>, tableName: R -> string, name: string)
    requires DistinctNames(rows, tableName)
    ensures DistinctNames(RowsNotOf(rows, tableName, name), tableName)
  {
    if rows != [] {
      TailDistinct(rows, tableName);
      RowsNotOfDistinct(rows[1..], tableName, name);
      if tableName(rows[0]) != name {
        ConsDistinct(rows[0], RowsNotOf(rows[1..], tableName, name), tableName);
      }
    }
  }

  /** The names of rows with one more row appended. */
  lemma TableNamesAppend<R>(rows: seq<R>, row: R, tableName: R -> string)
    ensures TableNames(rows + [row], tableName) == TableNames(rows, tableName) + [tableName(row)]
  {
    var lhs := TableNames(rows + [row], tableName);
    var rhs := TableNames(rows, tableName) + [tableName(row)];
    assert |lhs| == |rhs|;
    forall i | 0 <= i < |lhs|
      ensures lhs[i] == rhs[i]
    {
      if i < |rows| {
        assert (rows + [row])[i] == rows[i];
      }
    }
  }

  // ---------------------------------------------------------------------------------
  // Each storage step keeps a well-formed GeoPackage well-formed
  // ---------------------------------------------------------------------------------

  lemma EnsureTableKeepsValid(db: Db, kind: TableKind, engine: Engine)
    requires Valid(db)
    ensures Valid(EnsureTable(db, kind, engine).db)
  {
    if EnsureTable(db, kind, engine).db != db {
      CatalogGrowthKeepsValid(db, db.catalog + {kind});
    }
  }

  lemma CreateTableKeepsValid(db: Db, name: string, columns: seq<Column>, engine: Engine)
    requires Valid(db)
    ensures Valid(CreateTable(db, name, columns, engine).db)
  {
  }

  lemma InsertContentsKeepsValid(db: Db, row: Contents, engine: Engine)
    requires Valid(db)
    requires row.tableName in db.tables && row.srsId in db.srs
    ensures Valid(InsertContents(db, row, engine).db)
  {
    var d := InsertContents(db, row, engine).db;
    if d != db {
      forall i | 0 <= i < |d.geometryColumns|
        ensures DescribesFeatures(d, d.geometryColumns[i])
      {
        assert DescribesFeatures(db, db.geometryColumns[i]);
      }
      forall i | 0 <= i < |d.tileMatrixSets|
        ensures DescribesTiles(d, d.tileMatrixSets[i])
      {
        assert DescribesTiles(db, db.tileMatrixSets[i]);
      }
    }
  }

  lemma InsertGeometryColumnsKeepsValid(db: Db, row: GeometryColumns, engine: Engine)
    requires Valid(db) && DescribesFeatures(db, row)
    ensures Valid(InsertGeometryColumns(db, row, engine).db)
  {
    var d := InsertGeometryColumns(db, row, engine).db;
    if d != db {
      assert d.geometryColumns == db.geometryColumns + [row];
      assert forall i :: 0 <= i < |db.geometryColumns| ==> db.geometryColumns[i].tableName != row.tableName;
      forall i | 0 <= i < |d.geometryColumns|
        ensures DescribesFeatures(d, d.geometryColumns[i])
      {
        if i < |db.geometryColumns| {
          assert d.geometryColumns[i] == db.geometryColumns[i];
        }
      }
      forall i, j | 0 <= i < j < |d.geometryColumns|
        ensures d.geometryColumns[i].tableName != d.geometryColumns[j].tableName
      {
        assert d.geometryColumns[i] == db.geometryColumns[i];
        if j < |db.geometryColumns| {
          assert d.geometryColumns[j] == db.geometryColumns[j];
        }
      }
    }
  }

  lemma InsertTileMatrixSetKeepsValid(db: Db, row: TileMatrixSet, engine: Engine)
    requires Valid(db) && DescribesTiles(db, row)
    ensures Valid(InsertTileMatrixSet(db, row, engine).db)
  {
    var d := InsertTileMatrixSet(db, row, engine).db;
    if d != db {
      assert d.tileMatrixSets == db.tileMatrixSets + [row];
      assert forall i :: 0 <= i < |db.tileMatrixSets| ==> db.tileMatrixSets[i].tableName != row.tableName;
      forall i | 0 <= i < |d.tileMatrixSets|
        ensures DescribesTiles(d, d.tileMatrixSets[i])
      {
        if i < |db.tileMatrixSets| {
          assert d.tileMatrixSets[i] == db.tileMatrixSets[i];
        }
      }
      forall i, j | 0 <= i < j < |d.tileMatrixSets|
        ensures d.tileMatrixSets[i].tableName != d.tileMatrixSets[j].tableName
      {
        assert d.tileMatrixSets[i] == db.tileMatrixSets[i];
        if j < |db.tileMatrixSets| {
          assert d.tileMatrixSets[j] == db.tileMatrixSets[j];
        }
      }
    }
  }

  /** The geometry columns rows left after a drop still describe feature tables, once each. */
  lemma DroppedKeepsFeatures(db: Db, name: string)
    requires Valid(db)
    ensures var d := Dropped(db, name);
      && (forall i :: 0 <= i < |d.geometryColumns| ==> DescribesFeatures(d, d.geometryColumns[i]))
      && (forall i, j :: 0 <= i < j < |d.geometryColumns| ==>
            d.geometryColumns[i].tableName != d.geometryColumns[j].tableName)
      && (d.geometryColumns != [] ==> GpkgGeometryColumns in d.catalog)
  {
    var d := Dropped(db, name);
    forall i | 0 <= i < |d.geometryColumns|
      ensures DescribesFeatures(d, d.geometryColumns[i])
    {
      var row := d.geometryColumns[i];
      assert row in d.geometryColumns;
      var k :| 0 <= k < |db.geometryColumns| && db.geometryColumns[k] == row;
      assert DescribesFeatures(db, db.geometryColumns[k]);
    }
    assert DistinctNames(db.geometryColumns, GeometryColumnsTable) by {
      forall i, j | 0 <= i < j < |db.geometryColumns|
        ensures GeometryColumnsTable(db.geometryColumns[i]) != GeometryColumnsTable(db.geometryColumns[j])
      {
      }
    }
    RowsNotOfDistinct(db.geometryColumns, GeometryColumnsTable, name);
    forall i, j | 0 <= i < j < |d.geometryColumns|
      ensures d.geometryColumns[i].tableName != d.geometryColumns[j].tableName
    {
      assert GeometryColumnsTable(d.geometryColumns[i]) != GeometryColumnsTable(d.geometryColumns[j]);
    }
    if d.geometryColumns != [] {
      assert d.geometryColumns[0] in db.geometryColumns;
    }
  }

  /** The tile matrix set rows left after a drop still describe tile tables, once each. */
  lemma DroppedKeepsTiles(db: Db, name: string)
    requires Valid(db)
    ensures var d := Dropped(db, name);
      && (forall i :: 0 <= i < |d.tileMatrixSets| ==> DescribesTiles(d, d.tileMatrixSets[i]))
      && (forall i, j :: 0 <= i < j < |d.tileMatrixSets| ==>
            d.tileMatrixSets[i].tableName != d.tileMatrixSets[j].tableName)
      && (d.tileMatrixSets != [] ==> GpkgTileMatrixSet in d.catalog)
  {
    var d := Dropped(db, name);
    forall i | 0 <= i < |d.tileMatrixSets|
      ensures DescribesTiles(d, d.tileMatrixSets[i])
    {
      var row := d.tileMatrixSets[i];
      assert row in d.tileMatrixSets;
      var k :| 0 <= k < |db.tileMatrixSets| && db.tileMatrixSets[k] == row;
      assert DescribesTiles(db, db.tileMatrixSets[k]);
    }
    assert DistinctNames(db.tileMatrixSets, TileMatrixSetTable) by {
      forall i, j | 0 <= i < j < |db.tileMatrixSets|
        ensures TileMatrixSetTable(db.tileMatrixSets[i]) != TileMatrixSetTable(db.tileMatrixSets[j])
      {
      }
    }
    RowsNotOfDistinct(db.tileMatrixSets, TileMatrixSetTable, name);
    forall i, j | 0 <= i < j < |d.tileMatrixSets|
      ensures d.tileMatrixSets[i].tableName != d.tileMatrixSets[j].tableName
    {
      assert TileMatrixSetTable(d.tileMatrixSets[i]) != TileMatrixSetTable(d.tileMatrixSets[j]);
    }
    if d.tileMatrixSets != [] {
      assert d.tileMatrixSets[0] in db.tileMatrixSets;
    }
  }

  /** Removing user tables never makes a name answer that did not answer before. */
  lemma FewerTablesFewerNames(db: Db, d: Db, name: string)
    requires d.tables.Keys <= db.tables.Keys && TableNamed(d, name)
    ensures TableNamed(db, name)
  {
    var t :| t in d.tables && SameName(t, name);
    assert t in db.tables;
  }

  /** Dropping a user table together with its catalog rows keeps the GeoPackage well-formed. */
  lemma DroppedKeepsValid(db: Db, name: string)
    requires Valid(db)
    ensures Valid(Dropped(db, name))
  {
    forall kind | kind in Dropped(db, name).catalog
      ensures !TableNamed(Dropped(db, name), TableName(kind))
    {
      if TableNamed(Dropped(db, name), TableName(kind)) {
        FewerTablesFewerNames(db, Dropped(db, name), TableName(kind));
      }
    }
    DroppedKeepsFeatures(db, name);
    DroppedKeepsTiles(db, name);
  }

  /** Provisioning more catalog tables keeps a well-formed GeoPackage well-formed. */
  lemma CatalogGrowthKeepsValid(db: Db, catalog: set<TableKind>)
    requires Valid(db) && db.catalog <= catalog
    requires forall kind :: kind in catalog ==> !TableNamed(db, TableName(kind))
    ensures Valid(db.(catalog := catalog))
  {
  }

  /** `deleteTable` keeps a well-formed GeoPackage well-formed, whether or not it fails. */
  lemma DeleteTableKeepsValid(db: Db, name: string, engine: Engine)
    requires Valid(db)
    ensures Valid(DeleteTable(db, name, engine).db)
    ensures Valid(DeleteTableQuietly(db, name, engine).db)
  {
    DroppedKeepsValid(db, name);
  }

  // ---------------------------------------------------------------------------------
  // Catalog tables are created at most once
  // ---------------------------------------------------------------------------------

  /**
   * Once `create<Kind>Table()` has returned normally, calling it again changes nothing
   * and reports that nothing was created.
   */
  lemma EnsureTableIdempotent(db: Db, kind: TableKind, engine: Engine)
    requires EnsureTable(db, kind, engine).result.Success?
    ensures var first := EnsureTable(db, kind, engine);
      EnsureTable(first.db, kind, engine) == Outcome(first.db, Success(false))
  {
  }

  // ---------------------------------------------------------------------------------
  // Cleanup: what a failed workflow leaves behind
  // ---------------------------------------------------------------------------------

  /**
   * `after` is `before` plus user table `name`, possibly with its contents row: what a
   * workflow leaves when its cleanup delete fails.
   */
  predicate Orphaned(before: Db, after: Db, name: string)
  {
    && name !in before.tables && name in after.tables
    && after.tables - {name} == before.tables
    && after.contents - {name} == before.contents
    && after == before.(tables := after.tables, contents := after.contents)
  }

  /** Adding a fresh key and removing it again gives the map back. */
  lemma AddThenRemove<K, V>(m: map<K, V>, k: K, v: V)
    requires k !in m
    ensures m[k := v] - {k} == m
  {
  }

  /**
   * The quiet delete of the catch clauses run on `x`, which is `base` plus the new user
   * table `name` and perhaps its contents row: a successful delete restores `base` exactly; a failed one
   * leaves `x`, an orphaned table.
   */
  lemma CleanupRestores(base: Db, x: Db, name: string, engine: Engine)
    requires Valid(base)
    requires name !in base.tables && name in x.tables
    requires x.tables - {name} == base.tables && x.contents - {name} == base.contents
    requires x == base.(tables := x.tables, contents := x.contents)
    ensures var d := DeleteTableQuietly(x, name, engine).db;
      && (engine.Fault(ContentsDelete(name)).None? ==> d == base)
      && (engine.Fault(ContentsDelete(name)).Some? ==> d == x && Orphaned(base, x, name))
  {
    var d := Dropped(x, name);
    forall i | 0 <= i < |base.geometryColumns|
      ensures base.geometryColumns[i].tableName != name
    {
      assert DescribesFeatures(base, base.geometryColumns[i]);
    }
    forall i | 0 <= i < |base.tileMatrixSets|
      ensures base.tileMatrixSets[i].tableName != name
    {
      assert DescribesTiles(base, base.tileMatrixSets[i]);
    }
    RowsNotOfAbsent(base.geometryColumns, GeometryColumnsTable, name);
    RowsNotOfAbsent(base.tileMatrixSets, TileMatrixSetTable, name);
    assert d == base;
  }

  /** The engine lets `create<Kind>Table()` return normally. */
  predicate EnsureSucceeds(db: Db, kind: TableKind, engine: Engine)
  {
    engine.Fault(ExistsQuery(kind)).None?
    && (!Present(db, kind) ==> engine.Fault(CreateScript(kind)).None?)
  }

  /**
   * After `create<Kind>Table()` the catalog table is there: it was, or no table of its name
   * was there and its script ran statements.
   */
  predicate Provisioned(db: Db, kind: TableKind, engine: Engine)
  {
    kind in db.catalog || (!TableNamed(db, TableName(kind)) && engine.scriptStatements(kind) > 0)
  }

  /** A normal return from `create<Kind>Table()` adds `kind` to the catalog when it provisions it. */
  lemma EnsureTableProvisions(db: Db, kind: TableKind, engine: Engine)
    requires EnsureSucceeds(db, kind, engine)
    ensures var ensured := EnsureTable(db, kind, engine);
      && ensured.result.Success?
      && (kind in ensured.db.catalog <==> Provisioned(db, kind, engine))
  {
  }

  // ---------------------------------------------------------------------------------
  // The try block of the feature workflow
  // ---------------------------------------------------------------------------------

  /** The state the feature try block starts from: `base` plus the new user table. */
  function WithFeatureTable(base: Db, geometryColumns: GeometryColumns): Db
  {
    base.(tables := base.tables[geometryColumns.tableName := FeatureColumns(geometryColumns)])
  }

  /**
   * On a well-formed base without the table, the try block succeeds exactly when
   * gpkg_geometry_columns is provisioned and neither insert faults.
   */
  lemma FeatureMetadataSuccessIff(
    base: Db, geometryColumns: GeometryColumns, boundingBox: BoundingBox,
    srs: SpatialReferenceSystem, engine: Engine)
    requires Valid(base) && geometryColumns.tableName !in base.tables
    ensures var name := geometryColumns.tableName;
      FeatureMetadata(WithFeatureTable(base, geometryColumns), geometryColumns, boundingBox, srs, engine).result.Success?
      <==>
      && GpkgGeometryColumns in base.catalog
      && engine.Fault(RowInsert(GpkgContents, name)).None?
      && engine.Fault(RowInsert(GpkgGeometryColumns, name)).None?
  {
    var name := geometryColumns.tableName;
    forall i | 0 <= i < |base.geometryColumns|
      ensures base.geometryColumns[i].tableName != name
    {
      assert DescribesFeatures(base, base.geometryColumns[i]);
    }
  }

  /** A failed try block restores `base`, or leaves the orphaned table when the delete fails. */
  lemma FeatureMetadataFailureRestores(
    base: Db, geometryColumns: GeometryColumns, boundingBox: BoundingBox,
    srs: SpatialReferenceSystem, engine: Engine)
    requires Valid(base) && geometryColumns.tableName !in base.tables
    requires FeatureMetadata(WithFeatureTable(base, geometryColumns), geometryColumns, boundingBox, srs, engine).result.Failure?
    ensures var o := FeatureMetadata(WithFeatureTable(base, geometryColumns), geometryColumns, boundingBox, srs, engine);
      var name := geometryColumns.tableName;
      && (engine.Fault(ContentsDelete(name)).None? ==> o.db == base)
      && (o.db == base || (engine.Fault(ContentsDelete(name)).Some? && Orphaned(base, o.db, name)))
  {
    var name := geometryColumns.tableName;
    var x := WithFeatureTable(base, geometryColumns);
    AddThenRemove(base.tables, name, FeatureColumns(geometryColumns));
    var row := FeatureContents(name, boundingBox, srs);
    var withContents := InsertContents(x, row, engine);
    if withContents.result.Failure? {
      CleanupRestores(base, x, name, engine);
    } else {
      AddThenRemove(base.contents, name, row);
      var withDescriptor := InsertGeometryColumns(withContents.db, geometryColumns.(srsId := row.srsId), engine);
      CleanupRestores(base, withContents.db, name, engine);
    }
  }

  /** The try block keeps a well-formed GeoPackage well-formed, success or failure. */
  lemma FeatureMetadataKeepsValid(
    base: Db, geometryColumns: GeometryColumns, boundingBox: BoundingBox,
    srs: SpatialReferenceSystem, engine: Engine)
    requires Valid(base) && !NameTaken(base, geometryColumns.tableName) && srs.srsId in base.srs
    ensures Valid(FeatureMetadata(WithFeatureTable(base, geometryColumns), geometryColumns, boundingBox, srs, engine).db)
  {
    var name := geometryColumns.tableName;
    var x := WithFeatureTable(base, geometryColumns);
    CreateTableKeepsValid(base, name, FeatureColumns(geometryColumns), Engine(map[], _ => 0));
    var row := FeatureContents(name, boundingBox, srs);
    InsertContentsKeepsValid(x, row, engine);
    var withContents := InsertContents(x, row, engine);
    if withContents.result.Failure? {
      DeleteTableKeepsValid(withContents.db, name, engine);
    } else {
      var linked := geometryColumns.(srsId := row.srsId);
      InsertGeometryColumnsKeepsValid(withContents.db, linked, engine);
      DeleteTableKeepsValid(InsertGeometryColumns(withContents.db, linked, engine).db, name, engine);
    }
  }

  // ---------------------------------------------------------------------------------
  // createFeatureTableWithMetadata
  // ---------------------------------------------------------------------------------

  /** Everything before the feature workflow's try block goes through. */
  predicate FeaturePrelude(db: Db, geometryColumns: GeometryColumns, srsId: Long, engine: Engine)
  {
    && engine.Fault(SrsQuery(srsId)).None? && srsId in db.srs
    && EnsureSucceeds(db, GpkgGeometryColumns, engine)
    && engine.Fault(CreateTableDdl(geometryColumns.tableName)).None?
    && !NameTaken(db, geometryColumns.tableName)
    // gpkg_geometry_columns itself may just have been provisioned.
    && !(Provisioned(db, GpkgGeometryColumns, engine) && SameName(geometryColumns.tableName, TableName(GpkgGeometryColumns)))
  }

  /**
   * When the prelude goes through, the workflow is its try block run on the database with
   * gpkg_geometry_columns ensured and the user table created.
   */
  lemma FeaturePreludeOutcome(
    db: Db, geometryColumns: GeometryColumns, boundingBox: BoundingBox, srsId: Long, engine: Engine)
    requires FeaturePrelude(db, geometryColumns, srsId, engine)
    ensures var base := EnsureTable(db, GpkgGeometryColumns, engine).db;
      && base == db.(catalog := base.catalog)
      && base.catalog <= db.catalog + {GpkgGeometryColumns}
      && (GpkgGeometryColumns in base.catalog <==> Provisioned(db, GpkgGeometryColumns, engine))
      && !NameTaken(base, geometryColumns.tableName)
      && CreateFeatureTableWithMetadata(db, geometryColumns, boundingBox, srsId, engine)
         == FeatureMetadata(WithFeatureTable(base, geometryColumns), geometryColumns, boundingBox, db.srs[srsId], engine)
  {
    EnsureTableProvisions(db, GpkgGeometryColumns, engine);
  }

  /** When the prelude does not go through, nothing but provisioned catalog tables changes. */
  lemma FeaturePreludeFailure(
    db: Db, geometryColumns: GeometryColumns, boundingBox: BoundingBox, srsId: Long, engine: Engine)
    requires !FeaturePrelude(db, geometryColumns, srsId, engine)
    ensures var o := CreateFeatureTableWithMetadata(db, geometryColumns, boundingBox, srsId, engine);
      && o.result.Failure?
      && o.db == db.(catalog := o.db.catalog)
      && o.db.catalog <= db.catalog + {GpkgGeometryColumns}
  {
  }

  /**
   * On a well-formed GeoPackage the feature workflow succeeds exactly when the SRS exists,
   * gpkg_geometry_columns is (or gets) provisioned, the table name is new, and no engine
   * call along the way fails.
   */
  lemma FeatureSuccessIff(
    db: Db, geometryColumns: GeometryColumns, boundingBox: BoundingBox, srsId: Long, engine: Engine)
    requires Valid(db)
    ensures var name := geometryColumns.tableName;
      CreateFeatureTableWithMetadata(db, geometryColumns, boundingBox, srsId, engine).result.Success?
      <==>
      && FeaturePrelude(db, geometryColumns, srsId, engine)
      && Provisioned(db, GpkgGeometryColumns, engine)
      && engine.Fault(RowInsert(GpkgContents, name)).None?
      && engine.Fault(RowInsert(GpkgGeometryColumns, name)).None?
  {
    if FeaturePrelude(db, geometryColumns, srsId, engine) {
      FeaturePreludeOutcome(db, geometryColumns, boundingBox, srsId, engine);
      EnsureTableKeepsValid(db, GpkgGeometryColumns, engine);
      FeatureMetadataSuccessIff(EnsureTable(db, GpkgGeometryColumns, engine).db,
        geometryColumns, boundingBox, db.srs[srsId], engine);
    } else {
      FeaturePreludeFailure(db, geometryColumns, boundingBox, srsId, engine);
    }
  }

  /**
   * A failed feature workflow leaves the GeoPackage as it was, except for catalog tables it
   * provisioned; only when the cleanup delete also fails does the new table remain.
   */
  lemma FeatureFailureRestores(
    db: Db, geometryColumns: GeometryColumns, boundingBox: BoundingBox, srsId: Long, engine: Engine)
    requires Valid(db)
    requires CreateFeatureTableWithMetadata(db, geometryColumns, boundingBox, srsId, engine).result.Failure?
    ensures var o := CreateFeatureTableWithMetadata(db, geometryColumns, boundingBox, srsId, engine);
      var base := db.(catalog := o.db.catalog);
      && o.db.catalog <= db.catalog + {GpkgGeometryColumns}
      && (engine.Fault(ContentsDelete(geometryColumns.tableName)).None? ==> o.db == base)
      && (o.db == base
          || (engine.Fault(ContentsDelete(geometryColumns.tableName)).Some?
              && Orphaned(base, o.db, geometryColumns.tableName)))
  {
    if FeaturePrelude(db, geometryColumns, srsId, engine) {
      FeaturePreludeOutcome(db, geometryColumns, boundingBox, srsId, engine);
      EnsureTableKeepsValid(db, GpkgGeometryColumns, engine);
      FeatureMetadataFailureRestores(EnsureTable(db, GpkgGeometryColumns, engine).db,
        geometryColumns, boundingBox, db.srs[srsId], engine);
    } else {
      FeaturePreludeFailure(db, geometryColumns, boundingBox, srsId, engine);
    }
  }

  /**
   * When an insert in the try block fails, the caller sees an unchecked exception
   * unchanged and a storage exception wrapped with the table name, after the cleanup.
   */
  lemma FeatureInsertFaultRethrown(
    db: Db, geometryColumns: GeometryColumns, boundingBox: BoundingBox, srsId: Long, engine: Engine,
    e: Exception)
    requires Valid(db)
    requires FeaturePrelude(db, geometryColumns, srsId, engine)
    requires var name := geometryColumns.tableName;
      || engine.Fault(RowInsert(GpkgContents, name)) == Some(e)
      || (engine.Fault(RowInsert(GpkgContents, name)).None?
          && engine.Fault(RowInsert(GpkgGeometryColumns, name)) == Some(e))
    ensures var o := CreateFeatureTableWithMetadata(db, geometryColumns, boundingBox, srsId, engine);
      var name := geometryColumns.tableName;
      && o.result == Failure(Rethrow(e, MetadataFailedMessage(name)))
      && (!e.SQLException? ==> o.result.error == e)
      && (e.SQLException? ==> o.result.error == GeoPackageException(MetadataFailedMessage(name), Some(e)))
  {
    FeaturePreludeOutcome(db, geometryColumns, boundingBox, srsId, engine);
    assert geometryColumns.tableName !in EnsureTable(db, GpkgGeometryColumns, engine).db.contents;
  }

  /**
   * A failure to create the user table is reported as it is and triggers no cleanup: in
   * particular an existing table of the same name, and its metadata, are left untouched.
   */
  lemma FeatureCreateTableFailureKeepsState(
    db: Db, geometryColumns: GeometryColumns, boundingBox: BoundingBox, srsId: Long, engine: Engine)
    requires engine.Fault(SrsQuery(srsId)).None? && srsId in db.srs
    requires EnsureSucceeds(db, GpkgGeometryColumns, engine)
    requires engine.Fault(CreateTableDdl(geometryColumns.tableName)).Some? || NameTaken(db, geometryColumns.tableName)
    ensures var o := CreateFeatureTableWithMetadata(db, geometryColumns, boundingBox, srsId, engine);
      var ensured := EnsureTable(db, GpkgGeometryColumns, engine);
      && o == Outcome(ensured.db,
           Failure(CreateTable(ensured.db, geometryColumns.tableName, FeatureColumns(geometryColumns), engine).result.error))
      && o.db == db.(catalog := o.db.catalog)
  {
  }

  /** The feature workflow keeps a well-formed GeoPackage well-formed, success or failure. */
  lemma FeatureKeepsValid(
    db: Db, geometryColumns: GeometryColumns, boundingBox: BoundingBox, srsId: Long, engine: Engine)
    requires Valid(db)
    ensures Valid(CreateFeatureTableWithMetadata(db, geometryColumns, boundingBox, srsId, engine).db)
  {
    if FeaturePrelude(db, geometryColumns, srsId, engine) {
      EnsureTableKeepsValid(db, GpkgGeometryColumns, engine);
      FeaturePreludeOutcome(db, geometryColumns, boundingBox, srsId, engine);
      FeatureMetadataKeepsValid(EnsureTable(db, GpkgGeometryColumns, engine).db,
        geometryColumns, boundingBox, db.srs[srsId], engine);
    } else {
      FeaturePreludeFailure(db, geometryColumns, boundingBox, srsId, engine);
      CatalogGrowthKeepsValid(db,
        CreateFeatureTableWithMetadata(db, geometryColumns, boundingBox, srsId, engine).db.catalog);
    }
  }

  /** A feature table created successfully is the last name `getFeatureTables()` lists. */
  lemma CreatedFeatureTableListed(
    db: Db, geometryColumns: GeometryColumns, boundingBox: BoundingBox, srsId: Long, engine: Engine)
    requires Valid(db)
    requires CreateFeatureTableWithMetadata(db, geometryColumns, boundingBox, srsId, engine).result.Success?
    requires engine.Fault(NamesQuery(GpkgGeometryColumns)).None?
    ensures var o := CreateFeatureTableWithMetadata(db, geometryColumns, boundingBox, srsId, engine);
      ListFeatureTables(o.db, engine)
      == Success(TableNames(db.geometryColumns, GeometryColumnsTable) + [geometryColumns.tableName])
  {
    var o := CreateFeatureTableWithMetadata(db, geometryColumns, boundingBox, srsId, engine);
    FeatureSuccessIff(db, geometryColumns, boundingBox, srsId, engine);
    TableNamesAppend(db.geometryColumns, o.result.value, GeometryColumnsTable);
  }

  /** After a successful `deleteTable(name)` no listing names the table. */
  lemma DeletedTableNotListed(db: Db, name: string, engine: Engine)
    requires DeleteTable(db, name, engine).result.Success?
    ensures var d := DeleteTable(db, name, engine).db;
      && (ListFeatureTables(d, engine).Success? ==> name !in ListFeatureTables(d, engine).value)
      && (ListTileTables(d, engine).Success? ==> name !in ListTileTables(d, engine).value)
  {
    var d := DeleteTable(db, name, engine).db;
    forall i | 0 <= i < |d.geometryColumns|
      ensures d.geometryColumns[i].tableName != name
    {
      assert d.geometryColumns[i] in d.geometryColumns;
    }
    forall i | 0 <= i < |d.tileMatrixSets|
      ensures d.tileMatrixSets[i].tableName != name
    {
      assert d.tileMatrixSets[i] in d.tileMatrixSets;
    }
  }

  // ---------------------------------------------------------------------------------
  // The try block of the tile workflow
  // ---------------------------------------------------------------------------------

  /** The state the tile try block starts from: `base` plus the new user tile table. */
  function WithTileTable(base: Db, tableName: string): Db
  {
    base.(tables := base.tables[tableName := RequiredTileColumns()])
  }

  /**
   * On a well-formed base without the table, the try block succeeds exactly when
   * gpkg_tile_matrix_set is provisioned and neither insert faults.
   */
  lemma TileMetadataSuccessIff(
    base: Db, tableName: string, contentsBoundingBox: BoundingBox, contentsSrs: SpatialReferenceSystem,
    tileMatrixSetBoundingBox: BoundingBox, tileMatrixSetSrs: SpatialReferenceSystem, engine: Engine)
    requires Valid(base) && tableName !in base.tables
    ensures TileMetadata(WithTileTable(base, tableName), tableName, contentsBoundingBox, contentsSrs,
        tileMatrixSetBoundingBox, tileMatrixSetSrs, engine).result.Success?
      <==>
      && GpkgTileMatrixSet in base.catalog
      && engine.Fault(RowInsert(GpkgContents, tableName)).None?
      && engine.Fault(RowInsert(GpkgTileMatrixSet, tableName)).None?
  {
    forall i | 0 <= i < |base.tileMatrixSets|
      ensures base.tileMatrixSets[i].tableName != tableName
    {
      assert DescribesTiles(base, base.tileMatrixSets[i]);
    }
  }

  /** A failed try block restores `base`, or leaves the orphaned table when the delete fails. */
  lemma TileMetadataFailureRestores(
    base: Db, tableName: string, contentsBoundingBox: BoundingBox, contentsSrs: SpatialReferenceSystem,
    tileMatrixSetBoundingBox: BoundingBox, tileMatrixSetSrs: SpatialReferenceSystem, engine: Engine)
    requires Valid(base) && tableName !in base.tables
    requires TileMetadata(WithTileTable(base, tableName), tableName, contentsBoundingBox, contentsSrs,
      tileMatrixSetBoundingBox, tileMatrixSetSrs, engine).result.Failure?
    ensures var o := TileMetadata(WithTileTable(base, tableName), tableName, contentsBoundingBox, contentsSrs,
        tileMatrixSetBoundingBox, tileMatrixSetSrs, engine);
      && (engine.Fault(ContentsDelete(tableName)).None? ==> o.db == base)
      && (o.db == base || (engine.Fault(ContentsDelete(tableName)).Some? && Orphaned(base, o.db, tableName)))
  {
    var x := WithTileTable(base, tableName);
    AddThenRemove(base.tables, tableName, RequiredTileColumns());
    var row := TileContents(tableName, contentsBoundingBox, contentsSrs);
    var withContents := InsertContents(x, row, engine);
    if withContents.result.Failure? {
      CleanupRestores(base, x, tableName, engine);
    } else {
      AddThenRemove(base.contents, tableName, row);
      var tileMatrixSet := TileMatrixSet(tableName, tileMatrixSetSrs.srsId,
        tileMatrixSetBoundingBox.minLongitude, tileMatrixSetBoundingBox.minLatitude,
        tileMatrixSetBoundingBox.maxLongitude, tileMatrixSetBoundingBox.maxLatitude);
      var withDescriptor := InsertTileMatrixSet(withContents.db, tileMatrixSet, engine);
      CleanupRestores(base, withContents.db, tableName, engine);
    }
  }

  /** The try block keeps a well-formed GeoPackage well-formed, success or failure. */
  lemma TileMetadataKeepsValid(
    base: Db, tableName: string, contentsBoundingBox: BoundingBox, contentsSrs: SpatialReferenceSystem,
    tileMatrixSetBoundingBox: BoundingBox, tileMatrixSetSrs: SpatialReferenceSystem, engine: Engine)
    requires Valid(base) && !NameTaken(base, tableName)
    requires contentsSrs.srsId in base.srs && tileMatrixSetSrs.srsId in base.srs
    ensures Valid(TileMetadata(WithTileTable(base, tableName), tableName, contentsBoundingBox, contentsSrs,
      tileMatrixSetBoundingBox, tileMatrixSetSrs, engine).db)
  {
    var x := WithTileTable(base, tableName);
    CreateTableKeepsValid(base, tableName, RequiredTileColumns(), Engine(map[], _ => 0));
    var row := TileContents(tableName, contentsBoundingBox, contentsSrs);
    InsertContentsKeepsValid(x, row, engine);
    var withContents := InsertContents(x, row, engine);
    if withContents.result.Failure? {
      DeleteTableKeepsValid(withContents.db, tableName, engine);
    } else {
      var tileMatrixSet := TileMatrixSet(tableName, tileMatrixSetSrs.srsId,
        tileMatrixSetBoundingBox.minLongitude, tileMatrixSetBoundingBox.minLatitude,
        tileMatrixSetBoundingBox.maxLongitude, tileMatrixSetBoundingBox.maxLatitude);
      InsertTileMatrixSetKeepsValid(withContents.db, tileMatrixSet, engine);
      DeleteTableKeepsValid(InsertTileMatrixSet(withContents.db, tileMatrixSet, engine).db, tableName, engine);
    }
  }

  // ---------------------------------------------------------------------------------
  // createTileTableWithMetadata
  // ---------------------------------------------------------------------------------

  /** Everything before the tile workflow's try block goes through. */
  predicate TilePrelude(db: Db, tableName: string, contentsSrsId: Long, tileMatrixSetSrsId: Long, engine: Engine)
  {
    && engine.Fault(SrsQuery(contentsSrsId)).None? && contentsSrsId in db.srs
    && engine.Fault(SrsQuery(tileMatrixSetSrsId)).None? && tileMatrixSetSrsId in db.srs
    && EnsureSucceeds(db, GpkgTileMatrixSet, engine)
    && EnsureSucceeds(db, GpkgTileMatrix, engine)
    && engine.Fault(CreateTableDdl(tableName)).None?
    && !NameTaken(db, tableName)
    // The two tile catalog tables may just have been provisioned.
    && !(Provisioned(db, GpkgTileMatrixSet, engine) && SameName(tableName, TableName(GpkgTileMatrixSet)))
    && !(Provisioned(db, GpkgTileMatrix, engine) && SameName(tableName, TableName(GpkgTileMatrix)))
  }

  /** gpkg_tile_matrix_set, then gpkg_tile_matrix, as the tile workflow ensures them. */
  function TileCatalogEnsured(db: Db, engine: Engine): Db
  {
    EnsureTable(EnsureTable(db, GpkgTileMatrixSet, engine).db, GpkgTileMatrix, engine).db
  }

  /**
   * When the prelude goes through, the workflow is its try block run on the database with
   * both tile catalog tables ensured and the user table created.
   */
  lemma TilePreludeOutcome(
    db: Db, tableName: string, contentsBoundingBox: BoundingBox, contentsSrsId: Long,
    tileMatrixSetBoundingBox: BoundingBox, tileMatrixSetSrsId: Long, engine: Engine)
    requires TilePrelude(db, tableName, contentsSrsId, tileMatrixSetSrsId, engine)
    ensures var base := TileCatalogEnsured(db, engine);
      && base == db.(catalog := base.catalog)
      && base.catalog <= db.catalog + {GpkgTileMatrixSet, GpkgTileMatrix}
      && (GpkgTileMatrixSet in base.catalog <==> Provisioned(db, GpkgTileMatrixSet, engine))
      && !NameTaken(base, tableName)
      && CreateTileTableWithMetadata(db, tableName, contentsBoundingBox, contentsSrsId,
           tileMatrixSetBoundingBox, tileMatrixSetSrsId, engine)
         == TileMetadata(WithTileTable(base, tableName), tableName, contentsBoundingBox, db.srs[contentsSrsId],
           tileMatrixSetBoundingBox, db.srs[tileMatrixSetSrsId], engine)
  {
    var setTable := EnsureTable(db, GpkgTileMatrixSet, engine);
    EnsureTableProvisions(db, GpkgTileMatrixSet, engine);
    assert EnsureSucceeds(setTable.db, GpkgTileMatrix, engine);
    EnsureTableProvisions(setTable.db, GpkgTileMatrix, engine);
  }

  /** When the prelude does not go through, nothing but provisioned catalog tables changes. */
  lemma TilePreludeFailure(
    db: Db, tableName: string, contentsBoundingBox: BoundingBox, contentsSrsId: Long,
    tileMatrixSetBoundingBox: BoundingBox, tileMatrixSetSrsId: Long, engine: Engine)
    requires !TilePrelude(db, tableName, contentsSrsId, tileMatrixSetSrsId, engine)
    ensures var o := CreateTileTableWithMetadata(db, tableName, contentsBoundingBox, contentsSrsId,
        tileMatrixSetBoundingBox, tileMatrixSetSrsId, engine);
      && o.result.Failure?
      && o.db == db.(catalog := o.db.catalog)
      && o.db.catalog <= db.catalog + {GpkgTileMatrixSet, GpkgTileMatrix}
  {
    var setTable := EnsureTable(db, GpkgTileMatrixSet, engine);
    if GetSrs(db, contentsSrsId, engine).Success? && GetSrs(db, tileMatrixSetSrsId, engine).Success?
       && setTable.result.Success?
    {
      var matrixTable := EnsureTable(setTable.db, GpkgTileMatrix, engine);
      if matrixTable.result.Success? {
        assert EnsureSucceeds(db, GpkgTileMatrix, engine);
        assert CreateTable(matrixTable.db, tableName, RequiredTileColumns(), engine).result.Failure?;
      }
    }
  }

  /**
   * On a well-formed GeoPackage the tile workflow succeeds exactly when both SRSs exist,
   * gpkg_tile_matrix_set is (or gets) provisioned, the name is new and no engine call
   * fails. Whether gpkg_tile_matrix was actually provisioned does not matter.
   */
  lemma TileSuccessIff(
    db: Db, tableName: string, contentsBoundingBox: BoundingBox, contentsSrsId: Long,
    tileMatrixSetBoundingBox: BoundingBox, tileMatrixSetSrsId: Long, engine: Engine)
    requires Valid(db)
    ensures CreateTileTableWithMetadata(db, tableName, contentsBoundingBox, contentsSrsId,
        tileMatrixSetBoundingBox, tileMatrixSetSrsId, engine).result.Success?
      <==>
      && TilePrelude(db, tableName, contentsSrsId, tileMatrixSetSrsId, engine)
      && Provisioned(db, GpkgTileMatrixSet, engine)
      && engine.Fault(RowInsert(GpkgContents, tableName)).None?
      && engine.Fault(RowInsert(GpkgTileMatrixSet, tableName)).None?
  {
    if TilePrelude(db, tableName, contentsSrsId, tileMatrixSetSrsId, engine) {
      TilePreludeOutcome(db, tableName, contentsBoundingBox, contentsSrsId,
        tileMatrixSetBoundingBox, tileMatrixSetSrsId, engine);
      TileCatalogKeepsValid(db, engine);
      TileMetadataSuccessIff(TileCatalogEnsured(db, engine), tableName, contentsBoundingBox, db.srs[contentsSrsId],
        tileMatrixSetBoundingBox, db.srs[tileMatrixSetSrsId], engine);
    } else {
      TilePreludeFailure(db, tableName, contentsBoundingBox, contentsSrsId,
        tileMatrixSetBoundingBox, tileMatrixSetSrsId, engine);
    }
  }

  lemma TileCatalogKeepsValid(db: Db, engine: Engine)
    requires Valid(db)
    ensures Valid(TileCatalogEnsured(db, engine))
  {
    EnsureTableKeepsValid(db, GpkgTileMatrixSet, engine);
    EnsureTableKeepsValid(EnsureTable(db, GpkgTileMatrixSet, engine).db, GpkgTileMatrix, engine);
  }

  /**
   * A failed tile workflow leaves the GeoPackage as it was, except for catalog tables it
   * provisioned; only when the cleanup delete also fails does the new table remain.
   */
  lemma TileFailureRestores(
    db: Db, tableName: string, contentsBoundingBox: BoundingBox, contentsSrsId: Long,
    tileMatrixSetBoundingBox: BoundingBox, tileMatrixSetSrsId: Long, engine: Engine)
    requires Valid(db)
    requires CreateTileTableWithMetadata(db, tableName, contentsBoundingBox, contentsSrsId,
      tileMatrixSetBoundingBox, tileMatrixSetSrsId, engine).result.Failure?
    ensures var o := CreateTileTableWithMetadata(db, tableName, contentsBoundingBox, contentsSrsId,
        tileMatrixSetBoundingBox, tileMatrixSetSrsId, engine);
      var base := db.(catalog := o.db.catalog);
      && o.db.catalog <= db.catalog + {GpkgTileMatrixSet, GpkgTileMatrix}
      && (engine.Fault(ContentsDelete(tableName)).None? ==> o.db == base)
      && (o.db == base
          || (engine.Fault(ContentsDelete(tableName)).Some? && Orphaned(base, o.db, tableName)))
  {
    if TilePrelude(db, tableName, contentsSrsId, tileMatrixSetSrsId, engine) {
      TilePreludeOutcome(db, tableName, contentsBoundingBox, contentsSrsId,
        tileMatrixSetBoundingBox, tileMatrixSetSrsId, engine);
      TileCatalogKeepsValid(db, engine);
      TileMetadataFailureRestores(TileCatalogEnsured(db, engine), tableName, contentsBoundingBox, db.srs[contentsSrsId],
        tileMatrixSetBoundingBox, db.srs[tileMatrixSetSrsId], engine);
    } else {
      TilePreludeFailure(db, tableName, contentsBoundingBox, contentsSrsId,
        tileMatrixSetBoundingBox, tileMatrixSetSrsId, engine);
    }
  }

  /**
   * When an insert in the tile try block fails, the caller sees an unchecked exception
   * unchanged and a storage exception wrapped with the table name, after the cleanup.
   */
  lemma TileInsertFaultRethrown(
    db: Db, tableName: string, contentsBoundingBox: BoundingBox, contentsSrsId: Long,
    tileMatrixSetBoundingBox: BoundingBox, tileMatrixSetSrsId: Long, engine: Engine, e: Exception)
    requires Valid(db)
    requires TilePrelude(db, tableName, contentsSrsId, tileMatrixSetSrsId, engine)
    requires
      || engine.Fault(RowInsert(GpkgContents, tableName)) == Some(e)
      || (engine.Fault(RowInsert(GpkgContents, tableName)).None?
          && engine.Fault(RowInsert(GpkgTileMatrixSet, tableName)) == Some(e))
    ensures var o := CreateTileTableWithMetadata(db, tableName, contentsBoundingBox, contentsSrsId,
        tileMatrixSetBoundingBox, tileMatrixSetSrsId, engine);
      && o.result == Failure(Rethrow(e, MetadataFailedMessage(tableName)))
      && (!e.SQLException? ==> o.result.error == e)
      && (e.SQLException? ==> o.result.error == GeoPackageException(MetadataFailedMessage(tableName), Some(e)))
  {
    TilePreludeOutcome(db, tableName, contentsBoundingBox, contentsSrsId,
      tileMatrixSetBoundingBox, tileMatrixSetSrsId, engine);
    assert tableName !in TileCatalogEnsured(db, engine).contents;
  }

  /**
   * A failure to create the user tile table is reported as it is and triggers no cleanup;
   * the catalog tables already provisioned stay.
   */
  lemma TileCreateTableFailureKeepsState(
    db: Db, tableName: string, contentsBoundingBox: BoundingBox, contentsSrsId: Long,
    tileMatrixSetBoundingBox: BoundingBox, tileMatrixSetSrsId: Long, engine: Engine)
    requires engine.Fault(SrsQuery(contentsSrsId)).None? && contentsSrsId in db.srs
    requires engine.Fault(SrsQuery(tileMatrixSetSrsId)).None? && tileMatrixSetSrsId in db.srs
    requires EnsureSucceeds(db, GpkgTileMatrixSet, engine) && EnsureSucceeds(db, GpkgTileMatrix, engine)
    requires engine.Fault(CreateTableDdl(tableName)).Some? || NameTaken(db, tableName)
    ensures var o := CreateTileTableWithMetadata(db, tableName, contentsBoundingBox, contentsSrsId,
        tileMatrixSetBoundingBox, tileMatrixSetSrsId, engine);
      var provisioned := TileCatalogEnsured(db, engine);
      && o == Outcome(provisioned, Failure(CreateTable(provisioned, tableName, RequiredTileColumns(), engine).result.error))
      && o.db == db.(catalog := o.db.catalog)
  {
    var setTable := EnsureTable(db, GpkgTileMatrixSet, engine);
    assert EnsureTable(setTable.db, GpkgTileMatrix, engine).result.Success?;
  }

  /**
   * The contents row and the tile matrix set row take their SRSs from the two separate
   * arguments: each refers to the SRS it was given, whether or not they differ.
   */
  lemma TileSrsIndependent(
    db: Db, tableName: string, contentsBoundingBox: BoundingBox, contentsSrsId: Long,
    tileMatrixSetBoundingBox: BoundingBox, tileMatrixSetSrsId: Long, engine: Engine)
    requires Valid(db)
    requires CreateTileTableWithMetadata(db, tableName, contentsBoundingBox, contentsSrsId,
      tileMatrixSetBoundingBox, tileMatrixSetSrsId, engine).result.Success?
    ensures var o := CreateTileTableWithMetadata(db, tableName, contentsBoundingBox, contentsSrsId,
        tileMatrixSetBoundingBox, tileMatrixSetSrsId, engine);
      && o.db.contents[tableName].srsId == contentsSrsId
      && o.result.value.srsId == tileMatrixSetSrsId
      && o.db.tileMatrixSets[|o.db.tileMatrixSets| - 1] == o.result.value
  {
  }

  /** The tile workflow keeps a well-formed GeoPackage well-formed, success or failure. */
  lemma TileKeepsValid(
    db: Db, tableName: string, contentsBoundingBox: BoundingBox, contentsSrsId: Long,
    tileMatrixSetBoundingBox: BoundingBox, tileMatrixSetSrsId: Long, engine: Engine)
    requires Valid(db)
    ensures Valid(CreateTileTableWithMetadata(db, tableName, contentsBoundingBox, contentsSrsId,
      tileMatrixSetBoundingBox, tileMatrixSetSrsId, engine).db)
  {
    if TilePrelude(db, tableName, contentsSrsId, tileMatrixSetSrsId, engine) {
      TileCatalogKeepsValid(db, engine);
      TilePreludeOutcome(db, tableName, contentsBoundingBox, contentsSrsId,
        tileMatrixSetBoundingBox, tileMatrixSetSrsId, engine);
      TileMetadataKeepsValid(TileCatalogEnsured(db, engine), tableName, contentsBoundingBox, db.srs[contentsSrsId],
        tileMatrixSetBoundingBox, db.srs[tileMatrixSetSrsId], engine);
    } else {
      TilePreludeFailureKeepsValid(db, tableName, contentsBoundingBox, contentsSrsId,
        tileMatrixSetBoundingBox, tileMatrixSetSrsId, engine);
    }
  }

  /** A tile workflow that stops before its try block keeps the GeoPackage well-formed. */
  lemma TilePreludeFailureKeepsValid(
    db: Db, tableName: string, contentsBoundingBox: BoundingBox, contentsSrsId: Long,
    tileMatrixSetBoundingBox: BoundingBox, tileMatrixSetSrsId: Long, engine: Engine)
    requires Valid(db) && !TilePrelude(db, tableName, contentsSrsId, tileMatrixSetSrsId, engine)
    ensures Valid(CreateTileTableWithMetadata(db, tableName, contentsBoundingBox, contentsSrsId,
      tileMatrixSetBoundingBox, tileMatrixSetSrsId, engine).db)
  {
    TilePreludeFailure(db, tableName, contentsBoundingBox, contentsSrsId,
      tileMatrixSetBoundingBox, tileMatrixSetSrsId, engine);
    CatalogGrowthKeepsValid(db, CreateTileTableWithMetadata(db, tableName, contentsBoundingBox, contentsSrsId,
      tileMatrixSetBoundingBox, tileMatrixSetSrsId, engine).db.catalog);
  }

  /** A tile table created successfully is the last name `getTileTables()` lists. */
  lemma CreatedTileTableListed(
    db: Db, tableName: string, contentsBoundingBox: BoundingBox, contentsSrsId: Long,
    tileMatrixSetBoundingBox: BoundingBox, tileMatrixSetSrsId: Long, engine: Engine)
    requires Valid(db)
    requires CreateTileTableWithMetadata(db, tableName, contentsBoundingBox, contentsSrsId,
      tileMatrixSetBoundingBox, tileMatrixSetSrsId, engine).result.Success?
    requires engine.Fault(NamesQuery(GpkgTileMatrixSet)).None?
    ensures var o := CreateTileTableWithMetadata(db, tableName, contentsBoundingBox, contentsSrsId,
        tileMatrixSetBoundingBox, tileMatrixSetSrsId, engine);
      ListTileTables(o.db, engine) == Success(TableNames(db.tileMatrixSets, TileMatrixSetTable) + [tableName])
  {
    var o := CreateTileTableWithMetadata(db, tableName, contentsBoundingBox, contentsSrsId,
      tileMatrixSetBoundingBox, tileMatrixSetSrsId, engine);
    TileSuccessIff(db, tableName, contentsBoundingBox, contentsSrsId,
      tileMatrixSetBoundingBox, tileMatrixSetSrsId, engine);
    TableNamesAppend(db.tileMatrixSets, o.result.value, TileMatrixSetTable);
  }

  // ---------------------------------------------------------------------------------
  // One namespace for user and catalog tables
  // ---------------------------------------------------------------------------------

  /**
   * A user table that took the name gpkg_geometry_columns: `createGeometryColumnsTable()`
   * finds it by name and provisions nothing, so no feature workflow can succeed, and one
   * whose cleanup works leaves the GeoPackage as it was.
   */
  lemma ShadowedGeometryColumnsBlocksFeatures(
    db: Db, geometryColumns: GeometryColumns, boundingBox: BoundingBox, srsId: Long, engine: Engine)
    requires Valid(db) && TableNamed(db, TableName(GpkgGeometryColumns))
    ensures engine.Fault(ExistsQuery(GpkgGeometryColumns)).None? ==>
      EnsureTable(db, GpkgGeometryColumns, engine) == Outcome(db, Success(false))
    ensures var o := CreateFeatureTableWithMetadata(db, geometryColumns, boundingBox, srsId, engine);
      && o.result.Failure?
      && (engine.Fault(ContentsDelete(geometryColumns.tableName)).None? ==> o.db == db)
  {
    assert GpkgGeometryColumns !in db.catalog;
    assert !Provisioned(db, GpkgGeometryColumns, engine);
    FeatureSuccessIff(db, geometryColumns, boundingBox, srsId, engine);
    FeatureFailureRestores(db, geometryColumns, boundingBox, srsId, engine);
  }
}
